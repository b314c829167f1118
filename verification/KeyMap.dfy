/** The map a table stands for: its items in order, seen by key. */
module KeyMap {
  import opened Bits
  import opened Items
  import opened Links

  ghost predicate UniqueKeys(s: seq<Item>) {
    forall i, j | 0 <= i < j < |s| :: s[i].key != s[j].key
  }

  /** Later items shadow earlier ones with the same key. */
  ghost function ByKey(s: seq<Item>): map<seq<Byte>, Item> {
    if s == [] then map[]
    else
      var x := s[|s| - 1];
      ByKey(s[..|s| - 1])[x.key := x]
  }

  lemma {:induction false} ByKeySound(s: seq<Item>)
    ensures forall key | key in ByKey(s) :: ByKey(s)[key] in s && ByKey(s)[key].key == key
    ensures forall x | x in s :: x.key in ByKey(s)
  {
    if s != [] {
      ByKeySound(s[..|s| - 1]);
      assert s == s[..|s| - 1] + [s[|s| - 1]];
    }
  }

  /** With unique keys every item is found under its own key. */
  lemma ByKeyFinds(s: seq<Item>, x: Item)
    requires UniqueKeys(s) && x in s
    ensures x.key in ByKey(s) && ByKey(s)[x.key] == x
  {
    ByKeySound(s);
    var y := ByKey(s)[x.key];
    var i :| 0 <= i < |s| && s[i] == x;
    var j :| 0 <= j < |s| && s[j] == y;
    assert i < j || j < i || i == j;
  }

  /** With unique keys the map depends on the set of items only. */
  lemma ByKeyFromMembers(s: seq<Item>, m: map<seq<Byte>, Item>)
    requires UniqueKeys(s)
    requires forall key :: key in m ==> m[key] in s && m[key].key == key
    requires forall x | x in s :: x.key in m
    ensures ByKey(s) == m
  {
    ByKeySound(s);
    forall key | key in m
      ensures key in ByKey(s) && ByKey(s)[key] == m[key]
    {
      ByKeyFinds(s, m[key]);
    }
    assert forall key | key in ByKey(s) :: ByKey(s)[key] in s;
  }

  /** Taking an item out of a table with unique keys takes out its key and nothing else. */
  lemma ByKeyWithout(s: seq<Item>, i: nat)
    requires UniqueKeys(s) && i < |s|
    ensures UniqueKeys(Without(s, i)) && ByKey(Without(s, i)) == ByKey(s) - {s[i].key}
  {
    hide Without, ByKey, UniqueKeys, Distinct;
    UniqueIsDistinct(s);
    UniqueWithout(s, i);
    var t, m := Without(s, i), ByKey(s) - {s[i].key};
    ByKeySound(s);
    forall key | key in m
      ensures m[key] in t && m[key].key == key
    {
      WithoutElements(s, i, m[key]);
    }
    forall x | x in t
      ensures x.key in m
    {
      WithoutElements(s, i, x);
      OtherKey(s, i, x);
    }
    ByKeyFromMembers(t, m);
  }

  lemma UniqueWithout(s: seq<Item>, i: nat)
    requires UniqueKeys(s) && i < |s|
    ensures UniqueKeys(Without(s, i))
  {
    var t := Without(s, i);
    forall j, k | 0 <= j < k < |t|
      ensures t[j].key != t[k].key
    {
      assert t[j] == s[if j < i then j else j + 1] && t[k] == s[if k < i then k else k + 1];
    }
  }

  lemma OtherKey(s: seq<Item>, i: nat, x: Item)
    requires UniqueKeys(s) && i < |s| && x in s && x != s[i]
    ensures x.key != s[i].key
  {
    var k :| 0 <= k < |s| && s[k] == x;
    assert k < i || i < k;
  }

  lemma UniqueIsDistinct(s: seq<Item>)
    requires UniqueKeys(s)
    ensures Distinct(s)
  {
  }

  /** Putting in an item with a new key, anywhere, adds that key. */
  lemma ByKeyWith(s: seq<Item>, i: nat, x: Item)
    requires UniqueKeys(s) && i <= |s| && x.key !in ByKey(s)
    ensures UniqueKeys(With(s, i, x)) && ByKey(With(s, i, x)) == ByKey(s)[x.key := x]
  {
    hide With, ByKey, UniqueKeys;
    var t, m := With(s, i, x), ByKey(s)[x.key := x];
    ByKeySound(s);
    UniqueWith(s, i, x);
    forall key | key in m
      ensures m[key] in t && m[key].key == key
    {
      WithElements(s, i, x, m[key]);
    }
    forall y | y in t
      ensures y.key in m
    {
      WithElements(s, i, x, y);
    }
    ByKeyFromMembers(t, m);
  }

  lemma ByKeyAppend(s: seq<Item>, x: Item)
    requires UniqueKeys(s) && x.key !in ByKey(s)
    ensures UniqueKeys(s + [x]) && ByKey(s + [x]) == ByKey(s)[x.key := x]
  {
    ByKeyWith(s, |s|, x);
    assert With(s, |s|, x) == s + [x];
  }

  /** Replacing the holder of a key by a new last item rebinds that key. */
  lemma ByKeyReplace(s: seq<Item>, i: nat, x: Item)
    requires UniqueKeys(s) && i < |s| && s[i].key == x.key
    ensures var t := Without(s, i) + [x];
            UniqueKeys(t) && ByKey(t) == ByKey(s)[x.key := x]
    ensures x.key in ByKey(s) && ByKey(s)[x.key] == s[i]
  {
    ByKeyWithout(s, i);
    ByKeyAppend(Without(s, i), x);
    ByKeyFinds(s, s[i]);
  }

  lemma OnlyHolder(s: seq<Item>, x: Item)
    requires UniqueKeys(s)
    ensures x in s ==> forall y | y in s :: y.key == x.key ==> y == x
  {
    if x in s {
      forall y | y in s && y.key == x.key
        ensures y == x
      {
        ByKeyFinds(s, x);
        ByKeyFinds(s, y);
      }
    }
  }

  lemma UniqueWith(s: seq<Item>, i: nat, x: Item)
    requires UniqueKeys(s) && i <= |s| && forall y | y in s :: y.key != x.key
    ensures UniqueKeys(With(s, i, x))
  {
    var t := With(s, i, x);
    forall j, k | 0 <= j < k < |t|
      ensures t[j].key != t[k].key
    {
      assert j < i ==> t[j] == s[j];
      assert j > i ==> t[j] == s[j - 1];
      assert k < i ==> t[k] == s[k];
      assert k > i ==> t[k] == s[k - 1];
    }
  }

  lemma WithElements(s: seq<Item>, i: nat, x: Item, y: Item)
    requires i <= |s|
    ensures y in With(s, i, x) <==> y == x || y in s
  {
    assert s == s[..i] + s[i..];
  }
}
