/**
 * The inventory ledger: an ordered list of `{name, quantity}` entries that
 * callers extend with `AddItems`, shrink with `RemoveItems` and query with
 * `HasRequiredItems`. Every operation first normalises the loosely-typed item
 * list it is given.
 */
module Inventory {
  import opened Wrappers

  /** An item as a caller may pass it: a falsy value (`null`, `undefined`, `0`, ...),
      a bare item name, or a record whose quantity may be missing. */
  datatype RawItem = Falsy | Bare(name: string) | Record(name: string, quantity: Option<int>)

  /** A normalised item. Ledger entries have the same shape. */
  datatype Item = Item(name: string, quantity: int)

  /** JavaScript truthiness of a raw item: the empty string is falsy, every record is truthy. */
  predicate Truthy(x: RawItem) {
    match x
    case Falsy => false
    case Bare(n) => n != ""
    case Record(_, _) => true
  }

  /** One surviving raw item, normalised: a bare name has quantity 1, a missing quantity defaults to 1. */
  function NormalizeOne(x: RawItem): (it: Item)
    requires Truthy(x)
    ensures it.name == x.name
    ensures x.Bare? ==> it.quantity == 1
    ensures x.Record? ==> it.quantity == (if x.quantity.Some? then x.quantity.value else 1)
  {
    match x
    case Bare(n) => Item(n, 1)
    case Record(n, q) => Item(n, if q.Some? then q.value else 1)
  }

  /** `normalizeItems`: drop the falsy entries, normalise the rest, keep their order. */
  function Normalize(raw: seq<RawItem>): (r: seq<Item>)
    ensures |r| <= |raw|
    ensures (forall i :: 0 <= i < |raw| ==> Truthy(raw[i])) ==>
              |r| == |raw| && forall i :: 0 <= i < |r| ==> r[i] == NormalizeOne(raw[i])
    ensures (forall i :: 0 <= i < |raw| ==> !Truthy(raw[i])) ==> r == []
  {
    if raw == [] then []
    else if Truthy(raw[0]) then [NormalizeOne(raw[0])] + Normalize(raw[1..])
    else Normalize(raw[1..])
  }

  /** Exactly the truthy raw items survive normalisation, each as its normalised form. */
  lemma {:induction false} NormalizeMembers(raw: seq<RawItem>)
    ensures forall i :: 0 <= i < |raw| && Truthy(raw[i]) ==> NormalizeOne(raw[i]) in Normalize(raw)
    ensures forall y :: y in Normalize(raw) ==>
              exists i :: 0 <= i < |raw| && Truthy(raw[i]) && y == NormalizeOne(raw[i])
  {
    if raw != [] {
      NormalizeMembers(raw[1..]);
      assert forall i :: 1 <= i < |raw| ==> raw[i] == raw[1..][i - 1];
    }
  }

  /** Normalisation works item by item, so it distributes over concatenation. */
  lemma {:induction false} NormalizeAppend(a: seq<RawItem>, b: seq<RawItem>)
    ensures Normalize(a + b) == Normalize(a) + Normalize(b)
  {
    if a == [] {
      assert a + b == b;
    } else {
      assert (a + b)[0] == a[0];
      assert (a + b)[1..] == a[1..] + b;
      NormalizeAppend(a[1..], b);
    }
  }

  /** The names of the entries, in ledger order. */
  function Names(s: seq<Item>): (ns: seq<string>)
    ensures |ns| == |s| && forall i :: 0 <= i < |s| ==> ns[i] == s[i].name
  {
    seq(|s|, i requires 0 <= i < |s| => s[i].name)
  }

  /** The ledger invariant: no name occurs in two entries. */
  predicate UniqueNames(s: seq<Item>) {
    forall i, j :: 0 <= i < j < |s| ==> s[i].name != s[j].name
  }

  /** `inventory.find(i => i.name === name)`, as the index of the first entry with that name. */
  function Find(s: seq<Item>, name: string): (r: Option<nat>)
    ensures r.None? <==> forall j :: 0 <= j < |s| ==> s[j].name != name
    ensures r.Some? ==> r.value < |s| && s[r.value].name == name
    ensures r.Some? ==> forall j :: 0 <= j < r.value ==> s[j].name != name
  {
    if s == [] then None
    else if s[0].name == name then Some(0)
    else match Find(s[1..], name)
      case None => None
      case Some(k) => Some(k + 1)
  }

  predicate Present(s: seq<Item>, name: string) {
    Find(s, name).Some?
  }

  /** The quantity the ledger holds under a name; 0 when it has no such entry. */
  function Count(s: seq<Item>, name: string): int {
    match Find(s, name)
    case None => 0
    case Some(i) => s[i].quantity
  }

  /** The total quantity a list of items carries under a name. */
  function Sum(xs: seq<Item>, name: string): int {
    if xs == [] then 0
    else (if xs[0].name == name then xs[0].quantity else 0) + Sum(xs[1..], name)
  }

  /** Every item of the list carries a positive quantity. */
  predicate Positive(xs: seq<Item>) {
    forall i :: 0 <= i < |xs| ==> xs[i].quantity > 0
  }

  /** One step of `addItemsToInventory`: merge into the entry of the same name, or append a new entry. */
  function AddOne(s: seq<Item>, it: Item): (r: seq<Item>)
    ensures |r| == |s| || |r| == |s| + 1
  {
    match Find(s, it.name)
    case Some(i) => s[i := Item(s[i].name, s[i].quantity + it.quantity)]
    case None => s + [Item(it.name, it.quantity)]
  }

  /** One step of `removeItemsFromInventory`: ignore an absent name; otherwise floor the
      quantity at 0 and splice the entry out when it reaches 0. */
  function RemoveOne(s: seq<Item>, it: Item): (r: seq<Item>)
    ensures |r| == |s| || |r| == |s| - 1
  {
    match Find(s, it.name)
    case None => s
    case Some(i) =>
      var q := Max(s[i].quantity - it.quantity, 0);
      if q == 0 then s[..i] + s[i + 1..] else s[i := Item(s[i].name, q)]
  }

  /** `AddOne` merging into the entry at a known index. */
  lemma AddOneAt(s: seq<Item>, it: Item, i: nat)
    requires Find(s, it.name) == Some(i)
    ensures AddOne(s, it) == s[i := Item(s[i].name, s[i].quantity + it.quantity)]
  {
  }

  /** `AddOne` appending an absent name. */
  lemma AddOneNew(s: seq<Item>, it: Item)
    requires Find(s, it.name) == None
    ensures AddOne(s, it) == s + [Item(it.name, it.quantity)]
  {
  }

  /** `RemoveOne` at a known index: the entry is spliced out when its quantity drops to 0, and lowered otherwise. */
  lemma RemoveOneAt(s: seq<Item>, it: Item, i: nat)
    requires Find(s, it.name) == Some(i)
    ensures s[i].quantity - it.quantity <= 0 ==> RemoveOne(s, it) == s[..i] + s[i + 1..]
    ensures s[i].quantity - it.quantity > 0 ==> RemoveOne(s, it) == s[i := Item(s[i].name, s[i].quantity - it.quantity)]
  {
  }

  /** The effect of a whole `addItemsToInventory` call on normalised items, in list order. */
  function AddAll(s: seq<Item>, xs: seq<Item>): (r: seq<Item>)
    ensures UniqueNames(s) ==> UniqueNames(r)
    decreases xs
  {
    if xs == [] then s
    else
      AddOneUnique(s, xs[0]);
      AddAll(AddOne(s, xs[0]), xs[1..])
  }

  /** The effect of a whole `removeItemsFromInventory` call on normalised items, in list order. */
  function RemoveAll(s: seq<Item>, xs: seq<Item>): (r: seq<Item>)
    ensures UniqueNames(s) ==> UniqueNames(r)
    decreases xs
  {
    if xs == [] then s
    else
      RemoveOneUnique(s, xs[0]);
      RemoveAll(RemoveOne(s, xs[0]), xs[1..])
  }

  /** The `every` of `hasRequiredItems`, over normalised requirements. */
  function Covers(s: seq<Item>, reqs: seq<Item>): (r: bool)
    ensures r <==> forall k :: 0 <= k < |reqs| ==>
                     Present(s, reqs[k].name) && Count(s, reqs[k].name) >= reqs[k].quantity
  {
    if reqs == [] then true
    else
      match Find(s, reqs[0].name)
      case None => false
      case Some(i) => s[i].quantity >= reqs[0].quantity && Covers(s, reqs[1..])
  }

  /** `hasRequiredItems`: every truthy requirement names an entry holding at least its normalised quantity;
      an empty requirement list is always met. */
  function HasRequiredItems(inventory: seq<Item>, requirements: seq<RawItem>): (r: bool)
    ensures r <==> forall k :: 0 <= k < |requirements| && Truthy(requirements[k]) ==>
                     Present(inventory, requirements[k].name) &&
                     Count(inventory, requirements[k].name) >= NormalizeOne(requirements[k]).quantity
    ensures requirements == [] ==> r
  {
    CoversNormalized(inventory, requirements);
    Covers(inventory, Normalize(requirements))
  }

  lemma CoversNormalized(inventory: seq<Item>, raw: seq<RawItem>)
    ensures Covers(inventory, Normalize(raw)) <==>
            forall k :: 0 <= k < |raw| && Truthy(raw[k]) ==>
              Present(inventory, raw[k].name) && Count(inventory, raw[k].name) >= NormalizeOne(raw[k]).quantity
  {
    var reqs := Normalize(raw);
    NormalizeMembers(raw);
    if Covers(inventory, reqs) {
      forall k | 0 <= k < |raw| && Truthy(raw[k])
        ensures Present(inventory, raw[k].name) && Count(inventory, raw[k].name) >= NormalizeOne(raw[k]).quantity
      {
        var it := NormalizeOne(raw[k]);
        assert it in reqs;
        var j :| 0 <= j < |reqs| && reqs[j] == it;
      }
    } else {
      var j :| 0 <= j < |reqs| && !(Present(inventory, reqs[j].name) && Count(inventory, reqs[j].name) >= reqs[j].quantity);
      assert reqs[j] in reqs;
      var k :| 0 <= k < |raw| && Truthy(raw[k]) && reqs[j] == NormalizeOne(raw[k]);
    }
  }

  /** An entry's index is the one `Find` reports, when names are unique. */
  lemma FindUnique(s: seq<Item>, i: nat)
    requires UniqueNames(s) && i < |s|
    ensures Find(s, s[i].name) == Some(i)
  {
  }

  /** `Find` depends on the names only. */
  lemma FindByNames(s: seq<Item>, t: seq<Item>, name: string)
    requires Names(s) == Names(t)
    ensures Find(s, name) == Find(t, name)
  {
    assert |s| == |t|;
    assert forall j :: 0 <= j < |s| ==> s[j].name == t[j].name by {
      forall j | 0 <= j < |s| ensures s[j].name == t[j].name {
        assert Names(s)[j] == s[j].name && Names(t)[j] == t[j].name;
      }
    }
  }

  /** Appending an entry under another name does not move a lookup. */
  lemma FindAppend(s: seq<Item>, x: Item, name: string)
    requires x.name != name
    ensures Find(s + [x], name) == Find(s, name)
  {
    var t := s + [x];
    assert forall j :: 0 <= j < |s| ==> t[j] == s[j];
  }

  /** Merging or appending keeps names unique. */
  lemma AddOneUnique(s: seq<Item>, it: Item)
    ensures UniqueNames(s) ==> UniqueNames(AddOne(s, it))
  {
    if UniqueNames(s) && Find(s, it.name).None? {
      assert AddOne(s, it) == s + [Item(it.name, it.quantity)];
    }
  }

  /** Merging or appending: names keep their order and a new name goes last; only the
      incoming name's count changes, by exactly the incoming quantity; unique names stay unique. */
  lemma AddOneEffect(s: seq<Item>, it: Item)
    ensures Names(AddOne(s, it)) == if Present(s, it.name) then Names(s) else Names(s) + [it.name]
    ensures Count(AddOne(s, it), it.name) == Count(s, it.name) + it.quantity
    ensures forall m :: m != it.name ==> Count(AddOne(s, it), m) == Count(s, m)
    ensures forall j :: 0 <= j < |s| && s[j].name != it.name ==> AddOne(s, it)[j] == s[j]
    ensures UniqueNames(s) ==> UniqueNames(AddOne(s, it))
  {
    var r := AddOne(s, it);
    match Find(s, it.name)
    case Some(i) =>
      assert Names(r) == Names(s);
      forall m ensures Find(r, m) == Find(s, m) { FindByNames(r, s, m); }
    case None =>
      assert Names(r) == Names(s) + [it.name];
      forall m | m != it.name ensures Find(r, m) == Find(s, m) { FindAppend(s, Item(it.name, it.quantity), m); }
      assert r[|s|].name == it.name;
  }

  /** Splicing entry `i` out of a ledger with unique names leaves the lookup of any other name on the same entry. */
  lemma SpliceFind(s: seq<Item>, i: nat, m: string)
    requires UniqueNames(s) && i < |s| && m != s[i].name
    ensures Present(s[..i] + s[i + 1..], m) <==> Present(s, m)
    ensures Count(s[..i] + s[i + 1..], m) == Count(s, m)
  {
    var r := s[..i] + s[i + 1..];
    match Find(s, m)
    case None =>
      forall j | 0 <= j < |r| ensures r[j].name != m {
        if j < i { assert r[j] == s[j]; } else { assert r[j] == s[j + 1]; }
      }
    case Some(k) =>
      if k < i {
        assert r[k] == s[k];
        FindUnique(r, k);
      } else {
        assert r[k - 1] == s[k];
        FindUnique(r, k - 1);
      }
  }

  /** Splicing one entry out of a ledger with unique names keeps the names unique and in order,
      removes that entry's name and leaves every other name's count alone. */
  lemma SpliceEffect(s: seq<Item>, i: nat)
    requires UniqueNames(s) && i < |s|
    ensures UniqueNames(s[..i] + s[i + 1..])
    ensures Names(s[..i] + s[i + 1..]) == Names(s)[..i] + Names(s)[i + 1..]
    ensures !Present(s[..i] + s[i + 1..], s[i].name)
    ensures forall m :: m != s[i].name ==> Count(s[..i] + s[i + 1..], m) == Count(s, m)
    ensures forall m :: m != s[i].name ==> (Present(s[..i] + s[i + 1..], m) <==> Present(s, m))
  {
    var r := s[..i] + s[i + 1..];
    assert forall j :: 0 <= j < i ==> r[j] == s[j];
    assert forall j :: i <= j < |r| ==> r[j] == s[j + 1];
    assert Names(r) == Names(s)[..i] + Names(s)[i + 1..];
    forall m | m != s[i].name
      ensures Count(r, m) == Count(s, m) && (Present(r, m) <==> Present(s, m))
    {
      SpliceFind(s, i, m);
    }
  }

  /** Removing: an absent name changes nothing; a present one drops to `max(q - n, 0)`, is spliced out
      exactly when that is 0, and every other entry keeps its count and its relative order. */
  lemma RemoveOneEffect(s: seq<Item>, it: Item)
    requires UniqueNames(s)
    ensures !Present(s, it.name) ==> RemoveOne(s, it) == s
    ensures UniqueNames(RemoveOne(s, it))
    ensures Present(s, it.name) ==> Count(RemoveOne(s, it), it.name) == Max(Count(s, it.name) - it.quantity, 0)
    ensures Present(RemoveOne(s, it), it.name) <==> Present(s, it.name) && Count(s, it.name) - it.quantity > 0
    ensures forall m :: m != it.name ==> Count(RemoveOne(s, it), m) == Count(s, m)
    ensures forall m :: m != it.name ==> (Present(RemoveOne(s, it), m) <==> Present(s, m))
    ensures Present(RemoveOne(s, it), it.name) ==> Names(RemoveOne(s, it)) == Names(s)
    ensures Present(s, it.name) && !Present(RemoveOne(s, it), it.name) ==>
              var i := Find(s, it.name).value;
              Names(RemoveOne(s, it)) == Names(s)[..i] + Names(s)[i + 1..]
  {
    var r := RemoveOne(s, it);
    match Find(s, it.name)
    case None =>
    case Some(i) =>
      var q := Max(s[i].quantity - it.quantity, 0);
      if q == 0 {
        SpliceEffect(s, i);
      } else {
        assert Names(r) == Names(s);
        forall m ensures Find(r, m) == Find(s, m) { FindByNames(r, s, m); }
      }
  }

  /** An item list that does not mention a name carries nothing under it. */
  lemma {:induction false} SumAbsent(xs: seq<Item>, name: string)
    requires forall k :: 0 <= k < |xs| ==> xs[k].name != name
    ensures Sum(xs, name) == 0
  {
    if xs != [] {
      SumAbsent(xs[1..], name);
    }
  }

  /** A whole add: every name's count grows by exactly the quantity the list carries under it,
      and a ledger with unique names keeps them unique. */
  lemma {:induction false} AddAllEffect(s: seq<Item>, xs: seq<Item>)
    ensures forall n :: Count(AddAll(s, xs), n) == Count(s, n) + Sum(xs, n)
    decreases xs
  {
    if xs != [] {
      AddOneEffect(s, xs[0]);
      AddAllEffect(AddOne(s, xs[0]), xs[1..]);
    }
  }

  /** One removal step keeps names unique. */
  lemma RemoveOneUnique(s: seq<Item>, it: Item)
    ensures UniqueNames(s) ==> UniqueNames(RemoveOne(s, it))
  {
    if UniqueNames(s) {
      RemoveOneEffect(s, it);
    }
  }

  /** Removing requirements the ledger covers, with distinct names, lowers each count by exactly
      the required amount: the floor at 0 never bites. */
  lemma {:induction false} RemoveCovered(s: seq<Item>, reqs: seq<Item>)
    requires UniqueNames(s) && UniqueNames(reqs) && Covers(s, reqs)
    ensures forall n :: Count(RemoveAll(s, reqs), n) == Count(s, n) - Sum(reqs, n)
    decreases reqs
  {
    if reqs != [] {
      var r0 := reqs[0];
      var t := RemoveOne(s, r0);
      var rest := reqs[1..];
      RemoveOneEffect(s, r0);
      assert Count(s, r0.name) >= r0.quantity by { assert Covers(s, reqs); assert reqs[0] == r0; }
      assert forall k :: 0 <= k < |rest| ==> rest[k] == reqs[k + 1];
      assert forall k :: 0 <= k < |rest| ==> rest[k].name != r0.name;
      assert Covers(t, rest);
      assert UniqueNames(rest);
      RemoveCovered(t, rest);
      SumAbsent(rest, r0.name);
    }
  }

  /** Adding one more item after a fold is the fold over the longer list. */
  lemma {:induction false} AddAllAppend(s: seq<Item>, xs: seq<Item>, x: Item)
    ensures AddAll(s, xs + [x]) == AddOne(AddAll(s, xs), x)
    decreases xs
  {
    if xs != [] {
      assert (xs + [x])[1..] == xs[1..] + [x];
      AddAllAppend(AddOne(s, xs[0]), xs[1..], x);
    }
  }

  /** One step of the adding loop: the fold over the first `k + 1` items. */
  lemma AddAllSnoc(s: seq<Item>, xs: seq<Item>, k: nat, before: seq<Item>, after: seq<Item>)
    requires k < |xs| && before == AddAll(s, xs[..k]) && after == AddOne(before, xs[k])
    ensures after == AddAll(s, xs[..k + 1])
  {
    assert xs[..k + 1] == xs[..k] + [xs[k]];
    AddAllAppend(s, xs[..k], xs[k]);
  }

  /** Removing one more item after a fold is the fold over the longer list. */
  lemma {:induction false} RemoveAllAppend(s: seq<Item>, xs: seq<Item>, x: Item)
    ensures RemoveAll(s, xs + [x]) == RemoveOne(RemoveAll(s, xs), x)
    decreases xs
  {
    if xs != [] {
      assert (xs + [x])[1..] == xs[1..] + [x];
      RemoveAllAppend(RemoveOne(s, xs[0]), xs[1..], x);
    }
  }

  /** One step of the removal loop: the fold over the first `k + 1` items. */
  lemma RemoveAllSnoc(s: seq<Item>, xs: seq<Item>, k: nat, before: seq<Item>, after: seq<Item>)
    requires k < |xs| && before == RemoveAll(s, xs[..k]) && after == RemoveOne(before, xs[k])
    ensures after == RemoveAll(s, xs[..k + 1])
  {
    assert xs[..k + 1] == xs[..k] + [xs[k]];
    RemoveAllAppend(s, xs[..k], xs[k]);
  }

  /** The inventory array that `addItemsToInventory` and `removeItemsFromInventory` update in place. */
  class Ledger {
    var entries: seq<Item>

    constructor (initial: seq<Item>)
      ensures entries == initial
    {
      entries := initial;
    }

    /** `addItemsToInventory`: for each normalised item in turn, merge it into the entry of the
        same name or push a new entry. */
    method AddItems(items: seq<RawItem>)
      modifies this
      ensures entries == AddAll(old(entries), Normalize(items))
      ensures forall n :: Count(entries, n) == Count(old(entries), n) + Sum(Normalize(items), n)
      ensures UniqueNames(old(entries)) ==> UniqueNames(entries)
    {
      var normalized := Normalize(items);
      for k := 0 to |normalized|
        invariant entries == AddAll(old(entries), normalized[..k])
      {
        var incoming := normalized[k];
        ghost var before := entries;
        match Find(entries, incoming.name) {
          case Some(i) =>
            AddOneAt(entries, incoming, i);
            entries := entries[i := Item(entries[i].name, entries[i].quantity + incoming.quantity)];
          case None =>
            AddOneNew(entries, incoming);
            entries := entries + [Item(incoming.name, incoming.quantity)];
        }
        AddAllSnoc(old(entries), normalized, k, before, entries);
      }
      assert normalized[..|normalized|] == normalized;
      AddAllEffect(old(entries), normalized);
    }

    /** `removeItemsFromInventory`: for each normalised item in turn, skip an absent name, floor the
        entry's quantity at 0, and splice the entry out when it reaches 0. */
    method RemoveItems(items: seq<RawItem>)
      modifies this
      ensures entries == RemoveAll(old(entries), Normalize(items))
      ensures UniqueNames(old(entries)) ==> UniqueNames(entries)
    {
      var normalized := Normalize(items);
      for k := 0 to |normalized|
        invariant entries == RemoveAll(old(entries), normalized[..k])
      {
        var target := normalized[k];
        ghost var before := entries;
        match Find(entries, target.name) {
          case None =>
          case Some(i) =>
            RemoveOneAt(entries, target, i);
            var quantity := Max(entries[i].quantity - target.quantity, 0);
            if quantity == 0 {
              entries := entries[..i] + entries[i + 1..];
            } else {
              entries := entries[i := Item(entries[i].name, quantity)];
            }
        }
        RemoveAllSnoc(old(entries), normalized, k, before, entries);
      }
      assert normalized[..|normalized|] == normalized;
    }
  }
}
