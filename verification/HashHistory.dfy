/** Whole histories of one table: after any sequence of adds, in-order adds, replaces, deletes, finds
    and sorts the table is still valid and has behaved like a list; and as long as keys are unique,
    like a map that remembers insertion order. */
module HashHistory {
  import opened Bits
  import opened Items
  import opened Links
  import opened KeyMap
  import opened HashTable
  import opened StableSort
  import opened Buckets
  import opened Growth
  import HashSort

  datatype Op =
    | Put(item: Item)                  // HASH_REPLACE
    | Add(item: Item)                  // HASH_ADD
    | AddInorder(item: Item, cmp: Cmp) // HASH_ADD_INORDER
    | Remove(key: seq<Byte>)           // HASH_FIND, and HASH_DELETE of what it found
    | Get(key: seq<Byte>)              // HASH_FIND
    | Sort(cmp: Cmp)                   // HASH_SRT

  // ---- what one operation may do to the items, whatever their keys

  ghost predicate HasKey(s: seq<Item>, key: seq<Byte>) {
    exists x | x in s :: x.key == key
  }

  /** Exactly one item with this key is taken out, if there is one. */
  ghost predicate Drops(s: seq<Item>, t: seq<Item>, key: seq<Byte>, gone: Item?) {
    if HasKey(s, key)
    then gone != null && gone.key == key && exists i | 0 <= i < |s| :: s[i] == gone && t == Without(s, i)
    else gone == null && t == s
  }

  ghost predicate Allowed(s: seq<Item>, op: Op, answer: Item?, t: seq<Item>) {
    match op
    case Put(x) => t != [] && t[|t| - 1] == x && Drops(s, t[..|t| - 1], x.key, answer)
    case Add(x) => answer == null && t == s + [x]
    case AddInorder(x, cmp) => answer == null && t == Insert(cmp, s, x)
    case Remove(key) => Drops(s, t, key, answer)
    case Get(key) =>
      t == s && if HasKey(s, key) then answer != null && answer in s && answer.key == key else answer == null
    case Sort(cmp) =>
      answer == null && multiset(t) == multiset(s) && (TotalPreorder(cmp) ==> IsStableSortOf(cmp, t, s))
  }

  function KeyOf(op: Op): seq<Byte> {
    match op
    case Put(x) => x.key
    case Add(x) => x.key
    case AddInorder(x, _) => x.key
    case Remove(key) => key
    case Get(key) => key
    case Sort(_) => []
  }

  /** What an operation does to the bookkeeping, when `n` items are left; `hashv` is the hash of its key. */
  ghost predicate Bookkept(op: Op, answer: Item?, hashv: nat, before: Size, bs: seq<Bucket>,
                           n: nat, after: Size, bs': seq<Bucket>) {
    match op
    case Put(_) =>
      if answer == null then AddGrows(before, bs, hashv, n, after, bs')
      else if n == 1 then AddGrows(FRESH, EmptyBuckets(), hashv, n, after, bs')
      else ReplaceGrows(before, bs, hashv, n, after, bs')
    case Add(_) => AddGrows(before, bs, hashv, n, after, bs')
    case AddInorder(_, _) => AddGrows(before, bs, hashv, n, after, bs')
    case Remove(_) =>
      if answer == null then after == before && bs' == bs
      else if n == 0 then after == FRESH && bs' == EmptyBuckets()
      else after == before && OneMore(bs', ToBkt(hashv, if bs == [] then 1 else |bs|), bs)
    case Get(_) => after == before && bs' == bs
    case Sort(_) => after == before && bs' == bs
  }

  /** The doublings since the table was made: deleting or replacing its only item frees it. */
  ghost function Doublings(d: seq<bool>, op: Op, answer: Item?, before: Size, n: nat, after: Size): seq<bool> {
    if answer != null && ((op.Remove? && n == 0) || (op.Put? && n == 1)) then []
    else if after.numBuckets != before.numBuckets then d + [after.nonidealItems > n / 2]
    else d
  }

  lemma StayedTells(before: Size, bs: seq<Bucket>, hashv: nat, n: nat, after: Size, bs': seq<Bucket>, d: seq<bool>)
    requires Tells(before, d)
    requires AddGrows(before, bs, hashv, n, after, bs') || ReplaceGrows(before, bs, hashv, n, after, bs')
    ensures Tells(after, if after.numBuckets != before.numBuckets then d + [after.nonidealItems > n / 2] else d)
  {
    hide Tells, Doubled, ToBkt;
    if after != before {
      DoubledTells(before, n, after, bs', d);
      MoreBuckets(before, n, after, bs', d);
    }
  }

  lemma MoreBuckets(before: Size, n: nat, after: Size, bs': seq<Bucket>, d: seq<bool>)
    requires Tells(before, d) && Doubled(before, n, after, bs')
    ensures after.numBuckets > before.numBuckets
  {
  }

  /** Whatever is done to the table, its bookkeeping tells of the doublings since it was made. */
  lemma StepTells(op: Op, answer: Item?, hashv: nat, before: Size, bs: seq<Bucket>, n: nat, after: Size,
                  bs': seq<Bucket>, d: seq<bool>)
    requires Tells(before, d) && Bookkept(op, answer, hashv, before, bs, n, after, bs')
    ensures Tells(after, Doublings(d, op, answer, before, n, after))
  {
    hide Tells, AddGrows, ReplaceGrows;
    FreshTells();
    if op.Put? && answer != null && n == 1 {
      FirstStays(hashv, n, after, bs');
    } else if Adds(op) {
      StayedTells(before, bs, hashv, n, after, bs', d);
    }
  }

  lemma FirstStays(hashv: nat, n: nat, after: Size, bs': seq<Bucket>)
    requires AddGrows(FRESH, EmptyBuckets(), hashv, n, after, bs')
    ensures after == FRESH
  {
    hide ToBkt;
  }

  /** What the caller owes: an item is not added while it is in the table, unless it replaces itself. */
  ghost predicate Can(s: seq<Item>, op: Op) {
    match op
    case Put(x) => x in s ==> forall y | y in s :: y.key == x.key ==> y == x
    case Add(x) => x !in s
    case AddInorder(x, _) => x !in s
    case _ => true
  }

  predicate Adds(op: Op) {
    op.Put? || op.Add? || op.AddInorder?
  }

  ghost predicate Within(s: seq<Item>, universe: set<Item>) {
    forall x | x in s :: x in universe
  }

  lemma AllowedWithin(s: seq<Item>, op: Op, answer: Item?, t: seq<Item>, universe: set<Item>)
    requires Allowed(s, op, answer, t) && Within(s, universe) && (Adds(op) ==> op.item in universe)
    ensures Within(t, universe)
  {
    forall x | x in t
      ensures x in universe
    {
      AllowedMembers(s, op, answer, t, x);
    }
  }

  lemma AllowedMembers(s: seq<Item>, op: Op, answer: Item?, t: seq<Item>, x: Item)
    requires Allowed(s, op, answer, t) && x in t
    ensures x in s || (Adds(op) && x == op.item)
  {
    match op
    case AddInorder(y, cmp) => InsertElements(cmp, s, y);
    case Sort(_) => assert x in multiset(t);
    case _ =>
  }

  method Replacing(t: Table, x: Item, ghost universe: set<Item>) returns (answer: Item?)
    requires t.Valid() && t.Hashed() && Can(t.items, Put(x)) && Within(t.items, universe) && x in universe
    modifies t, t.buckets, t.bloomBv, universe
    ensures t.Valid() && t.Hashed() && Allowed(old(t.items), Put(x), answer, t.items)
    ensures fresh(t.buckets) || t.buckets == old(t.buckets)
    ensures fresh(t.bloomBv) || t.bloomBv == old(t.bloomBv)
    ensures Bookkept(Put(x), answer, t.hash(KeyOf(Put(x))), old(t.SizeNow()), old(t.BucketsNow()),
                     |t.items|, t.SizeNow(), t.BucketsNow())
  {
    hide t.Valid;
    answer := t.ReplaceByHashvalue(x, t.hash(x.key));
    assert t.items[..|t.items| - 1] + [x] == t.items;
  }

  method Adding(t: Table, x: Item, ghost universe: set<Item>)
    requires t.Valid() && t.Hashed() && Can(t.items, Add(x)) && Within(t.items, universe) && x in universe
    modifies t, t.buckets, t.bloomBv, universe
    ensures t.Valid() && t.Hashed() && Allowed(old(t.items), Add(x), null, t.items)
    ensures fresh(t.buckets) || t.buckets == old(t.buckets)
    ensures fresh(t.bloomBv) || t.bloomBv == old(t.bloomBv)
    ensures Bookkept(Add(x), null, t.hash(KeyOf(Add(x))), old(t.SizeNow()), old(t.BucketsNow()),
                     |t.items|, t.SizeNow(), t.BucketsNow())
  {
    hide t.Valid;
    t.AddKeyptr(x);
    assert forall y | y in t.items :: y == x || y in old(t.items);
  }

  method AddingInorder(t: Table, x: Item, cmp: Cmp, ghost universe: set<Item>)
    requires t.Valid() && t.Hashed() && Can(t.items, AddInorder(x, cmp)) && Within(t.items, universe) && x in universe
    modifies t, t.buckets, t.bloomBv, universe
    ensures t.Valid() && t.Hashed() && Allowed(old(t.items), AddInorder(x, cmp), null, t.items)
    ensures fresh(t.buckets) || t.buckets == old(t.buckets)
    ensures fresh(t.bloomBv) || t.bloomBv == old(t.bloomBv)
    ensures Bookkept(AddInorder(x, cmp), null, t.hash(KeyOf(AddInorder(x, cmp))), old(t.SizeNow()), old(t.BucketsNow()),
                     |t.items|, t.SizeNow(), t.BucketsNow())
  {
    hide t.Valid, Insert;
    ghost var s := t.items;
    t.AddKeyptrByHashvalueInorder(x, t.hash(x.key), cmp);
    InsertElements(cmp, s, x);
    assert forall y | y in t.items :: y == x || y in s;
  }

  method Removing(t: Table, key: seq<Byte>, ghost universe: set<Item>) returns (answer: Item?)
    requires t.Valid() && t.Hashed() && Within(t.items, universe)
    modifies t, t.buckets, universe
    ensures t.Valid() && t.Hashed() && Allowed(old(t.items), Remove(key), answer, t.items)
    ensures t.buckets == old(t.buckets) && t.bloomBv == old(t.bloomBv)
    ensures Bookkept(Remove(key), answer, t.hash(KeyOf(Remove(key))), old(t.SizeNow()), old(t.BucketsNow()),
                     |t.items|, t.SizeNow(), t.BucketsNow())
  {
    hide t.Valid, ByKey, OneMore, ToBkt, UniqueKeys, Without, Drops, HasKey;
    ghost var s := t.items;
    answer := t.Find(key);
    HasKeyIsInMap(s, key);
    if answer != null {
      t.Delete(answer);
      DropsOne(s, t.items, answer);
    } else {
      DropsNone(s, key);
    }
  }

  lemma DropsOne(s: seq<Item>, t: seq<Item>, x: Item)
    requires x in s && exists i | 0 <= i < |s| :: s[i] == x && t == Without(s, i)
    ensures Drops(s, t, x.key, x)
    ensures forall y | y in t :: y in s
  {
  }

  lemma DropsNone(s: seq<Item>, key: seq<Byte>)
    requires !HasKey(s, key)
    ensures Drops(s, s, key, null)
  {
  }

  method Getting(t: Table, key: seq<Byte>) returns (answer: Item?)
    requires t.Valid() && t.Hashed()
    ensures Allowed(t.items, Get(key), answer, t.items)
  {
    hide t.Valid, ByKey;
    ByKeySound(t.items);
    answer := t.Find(key);
  }

  method Sorting(t: Table, cmp: Cmp, ghost universe: set<Item>)
    requires t.Valid() && t.Hashed() && Within(t.items, universe)
    modifies t, universe
    ensures t.Valid() && t.Hashed() && Allowed(old(t.items), Sort(cmp), null, t.items)
    ensures t.buckets == old(t.buckets) && t.bloomBv == old(t.bloomBv)
    ensures Bookkept(Sort(cmp), null, t.hash(KeyOf(Sort(cmp))), old(t.SizeNow()), old(t.BucketsNow()),
                     |t.items|, t.SizeNow(), t.BucketsNow())
  {
    hide t.Valid, IsStableSortOf, TotalPreorder;
    ghost var s := t.items;
    HashSort.Sort(t, cmp);
    forall x | x in t.items
      ensures x in s
    {
      assert x in multiset(t.items);
    }
  }

  method Step(t: Table, op: Op, ghost universe: set<Item>) returns (answer: Item?)
    requires t.Valid() && t.Hashed() && Can(t.items, op)
    requires Within(t.items, universe) && (Adds(op) ==> op.item in universe)
    modifies t, t.buckets, t.bloomBv, universe
    ensures t.Valid() && t.Hashed() && Allowed(old(t.items), op, answer, t.items)
    ensures Within(t.items, universe)
    ensures fresh(t.buckets) || t.buckets == old(t.buckets)
    ensures fresh(t.bloomBv) || t.bloomBv == old(t.bloomBv)
    ensures Bookkept(op, answer, t.hash(KeyOf(op)), old(t.SizeNow()), old(t.BucketsNow()),
                     |t.items|, t.SizeNow(), t.BucketsNow())
  {
    hide t.Valid, t.Hashed, Allowed, AddGrows, ReplaceGrows;
    ghost var s := t.items;
    answer := null;
    match op {
      case Put(x) => answer := Replacing(t, x, universe);
      case Add(x) => Adding(t, x, universe);
      case AddInorder(x, cmp) => AddingInorder(t, x, cmp, universe);
      case Remove(key) => answer := Removing(t, key, universe);
      case Get(key) => answer := Getting(t, key);
      case Sort(cmp) => Sorting(t, cmp, universe);
    }
    AllowedWithin(s, op, answer, t.items, universe);
  }

  // ---- histories of any items

  /** The item an operation brings along. */
  ghost function Brings(op: Op): set<Item> {
    if Adds(op) then {op.item} else {}
  }

  /** A table with everything that has been done to it, duplicate keys included.  The caller decides on
      each operation when it comes, knowing the answers so far. */
  class History {
    const table: Table
    ghost var ops: seq<Op>
    ghost var answers: seq<Item?>

    /** The items before the first operation and after each. */
    ghost var states: seq<seq<Item>>

    /** For each doubling since the table was made, whether it was ineffective. */
    ghost var doublings: seq<bool>

    /** The table is valid, its bookkeeping tells of all its doublings, and every operation has done to the
        list of items one of the things it is allowed to do. */
    ghost predicate Valid()
      reads this, table, table.buckets, table.bloomBv, table.items
    {
      && table.Valid() && table.Hashed() && Tells(table.SizeNow(), doublings)
      && |answers| == |ops| && |states| == |ops| + 1 && states[|ops|] == table.items
      && forall i | 0 <= i < |ops| :: Allowed(states[i], ops[i], answers[i], states[i + 1])
    }

    constructor (table: Table, ghost doublings: seq<bool>)
      requires table.Valid() && table.Hashed() && Tells(table.SizeNow(), doublings)
      ensures Valid() && this.table == table && ops == [] && states == [table.items] && this.doublings == doublings
    {
      this.table := table;
      this.doublings := doublings;
      ops, answers, states := [], [], [table.items];
    }

    method Do(op: Op) returns (answer: Item?)
      requires Valid() && Can(table.items, op)
      modifies this, table, table.buckets, table.bloomBv, table.Members() + Brings(op)
      ensures Valid() && ops == old(ops) + [op]
      ensures answers == old(answers) + [answer] && states == old(states) + [table.items]
      ensures Bookkept(op, answer, table.hash(KeyOf(op)), old(table.SizeNow()), old(table.BucketsNow()),
                       |table.items|, table.SizeNow(), table.BucketsNow())
      ensures doublings == Doublings(old(doublings), op, answer, old(table.SizeNow()), |table.items|, table.SizeNow())
      ensures forall x | x in table.items :: x in old(table.items) || x in Brings(op)
      ensures fresh(table.buckets) || table.buckets == old(table.buckets)
      ensures fresh(table.bloomBv) || table.bloomBv == old(table.bloomBv)
    {
      hide table.Valid, table.Hashed, Allowed, Can, Bookkept, Tells;
      ghost var before, bs := table.SizeNow(), table.BucketsNow();
      answer := Step(table, op, table.Members() + Brings(op));
      StepTells(op, answer, table.hash(KeyOf(op)), before, bs, |table.items|, table.SizeNow(), table.BucketsNow(),
                doublings);
      doublings := Doublings(doublings, op, answer, before, |table.items|, table.SizeNow());
      ops, answers, states := ops + [op], answers + [answer], states + [table.items];
    }
  }

  // ---- histories with unique keys

  /** The items with another key, in order. */
  ghost function WithoutKey(s: seq<Item>, key: seq<Byte>): seq<Item> {
    if s == [] then []
    else WithoutKey(s[..|s| - 1], key) + if s[|s| - 1].key == key then [] else [s[|s| - 1]]
  }

  /** The insertion-ordered map: a put moves its key to the end. */
  ghost function Apply(s: seq<Item>, op: Op): seq<Item> {
    match op
    case Put(x) => WithoutKey(s, x.key) + [x]
    case Add(x) => s + [x]
    case AddInorder(x, cmp) => Insert(cmp, s, x)
    case Remove(key) => WithoutKey(s, key)
    case Get(_) => s
    case Sort(cmp) => Isort(cmp, s)
  }

  /** What a find, or the find inside a replace or a delete, comes up with. */
  ghost function Answer(s: seq<Item>, op: Op): Item? {
    match op
    case Put(x) => if x.key in ByKey(s) then ByKey(s)[x.key] else null
    case Remove(key) => if key in ByKey(s) then ByKey(s)[key] else null
    case Get(key) => if key in ByKey(s) then ByKey(s)[key] else null
    case _ => null
  }

  /** Added keys are new; comparators are total preorders. */
  ghost predicate Fits(s: seq<Item>, op: Op) {
    match op
    case Add(x) => x.key !in ByKey(s)
    case AddInorder(x, _) => x.key !in ByKey(s)
    case Sort(cmp) => TotalPreorder(cmp)
    case _ => true
  }

  ghost function ApplyAll(s: seq<Item>, ops: seq<Op>): seq<Item> {
    if ops == [] then s else Apply(ApplyAll(s, ops[..|ops| - 1]), ops[|ops| - 1])
  }

  lemma {:induction false} WithoutAbsentKey(s: seq<Item>, key: seq<Byte>)
    requires forall x | x in s :: x.key != key
    ensures WithoutKey(s, key) == s
  {
    if s != [] {
      WithoutAbsentKey(s[..|s| - 1], key);
    }
  }

  /** With unique keys, dropping a key is dropping the one item that has it. */
  lemma {:induction false} WithoutKeyIsWithout(s: seq<Item>, i: nat)
    requires UniqueKeys(s) && i < |s|
    ensures WithoutKey(s, s[i].key) == Without(s, i)
  {
    var k := |s| - 1;
    if i == k {
      WithoutAbsentKey(s[..k], s[i].key);
    } else {
      WithoutKeyIsWithout(s[..k], i);
      assert Without(s, i) == Without(s[..k], i) + [s[k]];
    }
  }

  lemma FitsCan(s: seq<Item>, op: Op)
    requires UniqueKeys(s) && Fits(s, op)
    ensures Can(s, op)
  {
    hide UniqueKeys, ByKey;
    ByKeySound(s);
    if op.Put? {
      OnlyHolder(s, op.item);
    }
  }

  lemma HasKeyIsInMap(s: seq<Item>, key: seq<Byte>)
    ensures HasKey(s, key) <==> key in ByKey(s)
  {
    hide ByKey;
    ByKeySound(s);
  }

  /** With unique keys a drop is what the map does. */
  lemma DropsUnique(s: seq<Item>, t: seq<Item>, key: seq<Byte>, gone: Item?)
    requires UniqueKeys(s) && Drops(s, t, key, gone)
    ensures t == WithoutKey(s, key) && UniqueKeys(t) && key !in ByKey(t)
    ensures gone == if key in ByKey(s) then ByKey(s)[key] else null
  {
    hide UniqueKeys, ByKey, WithoutKey;
    HasKeyIsInMap(s, key);
    if HasKey(s, key) {
      var i :| 0 <= i < |s| && s[i] == gone && t == Without(s, i);
      WithoutKeyIsWithout(s, i);
      ByKeyWithout(s, i);
      ByKeyFinds(s, gone);
    } else {
      WithoutAbsentKey(s, key);
    }
  }

  /** With unique keys, the one thing an operation may do is what the map does. */
  lemma UniqueDetermined(s: seq<Item>, op: Op, answer: Item?, t: seq<Item>)
    requires UniqueKeys(s) && Fits(s, op) && Allowed(s, op, answer, t)
    ensures t == Apply(s, op) && answer == Answer(s, op) && UniqueKeys(t)
  {
    hide UniqueKeys, ByKey, WithoutKey, Insert, IsStableSortOf, Isort, TotalPreorder;
    match op
    case Put(x) =>
      var rest := t[..|t| - 1];
      DropsUnique(s, rest, x.key, answer);
      ByKeyAppend(rest, x);
      assert t == rest + [x];
    case Add(x) => ByKeyAppend(s, x);
    case AddInorder(x, cmp) =>
      var i := InsertIsWith(cmp, s, x);
      ByKeyWith(s, i, x);
    case Remove(key) => DropsUnique(s, t, key, answer);
    case Get(key) =>
      HasKeyIsInMap(s, key);
      if answer != null {
        ByKeyFinds(s, answer);
      }
    case Sort(cmp) =>
      StableSortIsIsort(cmp, t, s);
      UniqueRearranged(s, t);
  }

  lemma UniqueRearranged(s: seq<Item>, t: seq<Item>)
    requires UniqueKeys(s) && multiset(t) == multiset(s)
    ensures UniqueKeys(t)
  {
    forall i, j | 0 <= i < j < |t|
      ensures t[i].key != t[j].key
    {
      assert t[i] in multiset(s) && t[j] in multiset(s);
      if t[i] == t[j] {
        TwiceCounted(t, i, j);
        OnceCounted(s, t[i]);
      } else {
        ByKeyFinds(s, t[i]);
        ByKeyFinds(s, t[j]);
      }
    }
  }

  lemma TwiceCounted(t: seq<Item>, i: nat, j: nat)
    requires i < j < |t| && t[i] == t[j]
    ensures multiset(t)[t[i]] >= 2
  {
    assert t == t[..j] + [t[j]] + t[j + 1..];
    assert t[i] in multiset(t[..j]);
  }

  lemma OnceCounted(s: seq<Item>, x: Item)
    requires UniqueKeys(s)
    ensures multiset(s)[x] <= 1
  {
    if k :| 0 <= k < |s| && s[k] == x {
      assert s == s[..k] + [s[k]] + s[k + 1..];
      assert x !in s[..k] && x !in s[k + 1..];
    } else {
      assert x !in multiset(s);
    }
  }

  /** The items the operations bring along. */
  ghost function Added(ops: seq<Op>): set<Item> {
    set op | op in ops && Adds(op) :: op.item
  }

  lemma AddedMember(ops: seq<Op>, i: nat)
    requires i < |ops| && Adds(ops[i])
    ensures ops[i].item in Added(ops)
  {
    assert ops[i] in ops;
  }

  /** Every history with unique keys ends in the state, and gives the answers, of the
      insertion-ordered map. */
  method Run(t: Table, ops: seq<Op>, ghost universe: set<Item>) returns (answers: seq<Item?>)
    requires t.Valid() && t.Hashed() && UniqueKeys(t.items)
    requires Within(t.items, universe) && Added(ops) <= universe
    requires forall i | 0 <= i < |ops| :: Fits(ApplyAll(t.items, ops[..i]), ops[i])
    modifies t, t.buckets, t.bloomBv, universe
    ensures t.Valid() && t.Hashed() && UniqueKeys(t.items)
    ensures t.items == ApplyAll(old(t.items), ops)
    ensures |answers| == |ops|
    ensures forall i | 0 <= i < |ops| :: answers[i] == Answer(ApplyAll(old(t.items), ops[..i]), ops[i])
  {
    hide t.Valid, t.Hashed, UniqueKeys, Apply, Answer, Allowed, Can, Fits, Added, Within, Bookkept;
    answers := [];
    ghost var s := t.items;
    for i := 0 to |ops|
      invariant t.Valid() && t.Hashed() && UniqueKeys(t.items) && Within(t.items, universe)
      invariant t.items == ApplyAll(s, ops[..i])
      invariant |answers| == i
      invariant forall j | 0 <= j < i :: answers[j] == Answer(ApplyAll(s, ops[..j]), ops[j])
      invariant fresh(t.buckets) || t.buckets == old(t.buckets)
      invariant fresh(t.bloomBv) || t.bloomBv == old(t.bloomBv)
    {
      ghost var before := t.items;
      if Adds(ops[i]) {
        AddedMember(ops, i);
      }
      FitsCan(before, ops[i]);
      var answer := Step(t, ops[i], universe);
      UniqueDetermined(before, ops[i], answer, t.items);
      answers := answers + [answer];
      assert ops[..i + 1][..i] == ops[..i];
    }
    assert ops[..|ops|] == ops;
  }
}
