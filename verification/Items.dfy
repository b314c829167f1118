/** The elements a hash table holds. */
module Items {
  import opened Bits

  /** The user's structure apart from its hash handle. */
  type Data = seq<Byte>

  /** An element together with its hash handle.  The key and the user's data do not change while
      the element is in a table. */
  class Item {
    const key: seq<Byte>
    const data: Data
    var hashv: nat
    var prev: Item?
    var next: Item?
    var hhPrev: Item?
    var hhNext: Item?

    constructor (key: seq<Byte>, data: Data)
      ensures this.key == key && this.data == data
    {
      this.key, this.data := key, data;
      hashv := 0;
      prev, next, hhPrev, hhNext := null, null, null, null;
    }
  }
}
