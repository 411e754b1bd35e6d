/**
 * Adding a list of items to the ledger and then removing the same list restores
 * the ledger exactly, entries and order alike, whenever the ledger has unique
 * names and positive quantities and every item carries a positive quantity.
 * The item list may name the same item several times.
 *
 * The proof describes the ledger in the middle of the removal pass. With `rest`
 * the part of the list still to be removed, the ledger is
 * `Bumped(s, rest) + Fresh(ns, rest)`: the original entries `s`, each raised by
 * what `rest` still carries under its name (`Bumped`), followed by the names `ns`
 * the add appended, in order of first appearance, for as long as `rest` still
 * carries a positive quantity under them (`Fresh`).
 */
module LedgerRoundTrip {
  import opened Wrappers
  import opened Inventory

  predicate Distinct(ns: seq<string>) {
    forall i, j :: 0 <= i < j < |ns| ==> ns[i] != ns[j]
  }

  function NameSet(s: seq<Item>): set<string> {
    set i | 0 <= i < |s| :: s[i].name
  }

  /** The names of `xs` outside `known`, each once, in order of first appearance:
      the entries a whole add appends to a ledger whose names are `known`. */
  function NewNames(known: set<string>, xs: seq<Item>): (ns: seq<string>)
    ensures Distinct(ns)
    ensures forall i :: 0 <= i < |ns| ==> ns[i] !in known
    ensures forall i :: 0 <= i < |xs| ==> xs[i].name in known || xs[i].name in ns
    decreases xs
  {
    if xs == [] then []
    else
      var tail := xs[1..];
      assert forall i :: 1 <= i < |xs| ==> xs[i] == tail[i - 1];
      if xs[0].name in known then NewNames(known, tail)
      else [xs[0].name] + NewNames(known + {xs[0].name}, tail)
  }

  /** The original entries, each raised by what `rest` carries under its name. */
  function Bumped(s: seq<Item>, rest: seq<Item>): (b: seq<Item>)
    ensures |b| == |s|
    ensures forall i :: 0 <= i < |s| ==> b[i] == Item(s[i].name, s[i].quantity + Sum(rest, s[i].name))
  {
    seq(|s|, i requires 0 <= i < |s| => Item(s[i].name, s[i].quantity + Sum(rest, s[i].name)))
  }

  /** The names of `ns` under which `rest` carries a positive quantity, with that quantity. */
  function Fresh(ns: seq<string>, rest: seq<Item>): (f: seq<Item>)
    ensures |f| <= |ns|
  {
    if ns == [] then []
    else (if Sum(rest, ns[0]) > 0 then [Item(ns[0], Sum(rest, ns[0]))] else []) + Fresh(ns[1..], rest)
  }

  /** Every appended entry comes from `ns` and carries its positive sum. */
  lemma {:induction false} FreshFacts(ns: seq<string>, rest: seq<Item>)
    ensures forall j :: 0 <= j < |Fresh(ns, rest)| ==> Fresh(ns, rest)[j].name in ns
    ensures forall j :: 0 <= j < |Fresh(ns, rest)| ==> Fresh(ns, rest)[j].quantity == Sum(rest, Fresh(ns, rest)[j].name) > 0
  {
    if ns != [] {
      FreshFacts(ns[1..], rest);
    }
  }

  /** Distinct names give appended entries with unique names. */
  lemma {:induction false} FreshUnique(ns: seq<string>, rest: seq<Item>)
    requires Distinct(ns)
    ensures UniqueNames(Fresh(ns, rest))
  {
    if ns != [] {
      FreshUnique(ns[1..], rest);
      FreshFacts(ns[1..], rest);
      assert forall k :: 1 <= k < |ns| ==> ns[k] == ns[1..][k - 1];
    }
  }

  lemma {:induction false} SumNonNegative(xs: seq<Item>, name: string)
    requires Positive(xs)
    ensures Sum(xs, name) >= 0
  {
    if xs != [] {
      SumNonNegative(xs[1..], name);
    }
  }

  /** `Fresh` looks at `rest` only through the sums under the names of `ns`. */
  lemma {:induction false} FreshAgree(ns: seq<string>, a: seq<Item>, b: seq<Item>)
    requires forall i :: 0 <= i < |ns| ==> Sum(a, ns[i]) == Sum(b, ns[i])
    ensures Fresh(ns, a) == Fresh(ns, b)
  {
    if ns != [] {
      FreshAgree(ns[1..], a, b);
    }
  }

  lemma {:induction false} FreshNothing(ns: seq<string>)
    ensures Fresh(ns, []) == []
  {
    if ns != [] {
      FreshNothing(ns[1..]);
    }
  }

  lemma SpliceConcat<T>(h: seq<T>, t: seq<T>, j: nat)
    requires j < |t|
    ensures (h + t)[..|h| + j] + (h + t)[|h| + j + 1..] == h + (t[..j] + t[j + 1..])
  {
  }

  lemma UpdateConcat<T>(h: seq<T>, t: seq<T>, j: nat, x: T)
    requires j < |t|
    ensures (h + t)[|h| + j := x] == h + t[j := x]
  {
  }

  /** Removing an item whose entry sits at index `j` of the tail `f` of `b + f`. */
  lemma RemoveInTail(b: seq<Item>, f: seq<Item>, j: nat, r: Item, q: int)
    requires j < |f| && Find(b + f, r.name) == Some(|b| + j)
    requires f[j].quantity == r.quantity + q && q >= 0
    ensures q == 0 ==> RemoveOne(b + f, r) == b + (f[..j] + f[j + 1..])
    ensures q > 0 ==> RemoveOne(b + f, r) == b + f[j := Item(r.name, q)]
  {
    assert (b + f)[|b| + j] == f[j];
    RemoveOneAt(b + f, r, |b| + j);
    if q == 0 {
      SpliceConcat(b, f, j);
    } else {
      UpdateConcat(b, f, j, Item(r.name, q));
    }
  }

  /** Removing `rest[0]` from the appended part: the entry under its name is lowered to what
      `rest[1..]` still carries, or dropped when that is nothing. */
  lemma {:induction false} FreshStep(ns: seq<string>, rest: seq<Item>) returns (j: nat)
    requires rest != [] && Positive(rest) && Distinct(ns) && rest[0].name in ns
    ensures j < |Fresh(ns, rest)| && Fresh(ns, rest)[j].name == rest[0].name
    ensures Fresh(ns, rest)[j].quantity == Sum(rest, rest[0].name)
    ensures var f := Fresh(ns, rest);
            var q := Sum(rest[1..], rest[0].name);
            Fresh(ns, rest[1..]) == if q == 0 then f[..j] + f[j + 1..] else f[j := Item(rest[0].name, q)]
  {
    var r := rest[0];
    var rest' := rest[1..];
    var m := ns[0];
    var tail := Fresh(ns[1..], rest);
    var q := Sum(rest', r.name);
    assert forall k :: 1 <= k < |ns| ==> ns[k] == ns[1..][k - 1];
    SumNonNegative(rest', r.name);
    if m == r.name {
      assert forall k :: 0 <= k < |ns[1..]| ==> ns[1..][k] != r.name;
      FreshAgree(ns[1..], rest, rest');
      assert Fresh(ns, rest) == [Item(m, Sum(rest, m))] + tail;
      j := 0;
    } else {
      assert Sum(rest, m) == Sum(rest', m);
      var j' := FreshStep(ns[1..], rest);
      var h := if Sum(rest, m) > 0 then [Item(m, Sum(rest, m))] else [];
      assert Fresh(ns, rest) == h + tail;
      assert Fresh(ns, rest') == h + Fresh(ns[1..], rest');
      j := |h| + j';
      if q == 0 {
        SpliceConcat(h, tail, j');
      } else {
        UpdateConcat(h, tail, j', Item(r.name, q));
      }
    }
  }

  lemma UniqueConcat(b: seq<Item>, f: seq<Item>)
    requires UniqueNames(b) && UniqueNames(f)
    requires forall i, j :: 0 <= i < |b| && 0 <= j < |f| ==> b[i].name != f[j].name
    ensures UniqueNames(b + f)
  {
  }

  /** With no more to remove, `Bumped` is the ledger itself. */
  lemma BumpedNothing(s: seq<Item>)
    ensures Bumped(s, []) == s
  {
  }

  /** `Bumped` does not see items under names outside the ledger. */
  lemma BumpedSkip(s: seq<Item>, rest: seq<Item>)
    requires rest != [] && rest[0].name !in NameSet(s)
    ensures Bumped(s, rest[1..]) == Bumped(s, rest)
  {
    forall k | 0 <= k < |s| ensures Bumped(s, rest[1..])[k] == Bumped(s, rest)[k] {
      assert s[k].name in NameSet(s);
    }
  }

  /** Lowering the bumped entry `i` by `rest[0]` gives the bump for `rest[1..]`. */
  lemma BumpedLower(s: seq<Item>, rest: seq<Item>, i: nat, lowered: seq<Item>)
    requires UniqueNames(s) && rest != [] && i < |s| && s[i].name == rest[0].name
    requires lowered == Bumped(s, rest)[i := Item(rest[0].name, s[i].quantity + Sum(rest[1..], rest[0].name))]
    ensures lowered == Bumped(s, rest[1..])
  {
    forall k | 0 <= k < |s| && k != i ensures Bumped(s, rest)[k] == Bumped(s, rest[1..])[k] {
      assert s[k].name != rest[0].name;
    }
  }

  /** Merging the first item into an existing entry `i` (giving `t`): the view of the rest is the view of the whole. */
  lemma ViewMerge(s: seq<Item>, xs: seq<Item>, i: nat, t: seq<Item>)
    requires UniqueNames(s) && xs != [] && i < |s| && s[i].name == xs[0].name
    requires t == s[i := Item(s[i].name, s[i].quantity + xs[0].quantity)]
    ensures NameSet(t) == NameSet(s)
    ensures Bumped(t, xs[1..]) == Bumped(s, xs)
    ensures NewNames(NameSet(s), xs) == NewNames(NameSet(s), xs[1..])
  {
    assert forall k :: 0 <= k < |s| ==> t[k].name == s[k].name;
    assert s[i].name in NameSet(s);
    var xs' := xs[1..];
    forall k | 0 <= k < |s| ensures Bumped(t, xs')[k] == Bumped(s, xs)[k] {
      if k == i {
        assert Sum(xs, s[i].name) == xs[0].quantity + Sum(xs', s[i].name);
      } else {
        assert s[k].name != xs[0].name;
        assert Sum(xs, s[k].name) == Sum(xs', s[k].name);
      }
    }
  }

  /** Appending the first item as a new entry (giving `t`): the view of the rest is the view of the whole. */
  lemma ViewAppend(s: seq<Item>, xs: seq<Item>, t: seq<Item>)
    requires xs != [] && xs[0].name !in NameSet(s)
    requires t == s + [Item(xs[0].name, xs[0].quantity)]
    ensures NameSet(t) == NameSet(s) + {xs[0].name}
    ensures Bumped(t, xs[1..]) == Bumped(s, xs) + [Item(xs[0].name, Sum(xs, xs[0].name))]
    ensures NewNames(NameSet(s), xs) == [xs[0].name] + NewNames(NameSet(s) + {xs[0].name}, xs[1..])
  {
    var x := xs[0];
    var xs' := xs[1..];
    assert NameSet(t) == NameSet(s) + {x.name} by {
      assert t[|s|].name == x.name;
      assert forall k :: 0 <= k < |s| ==> t[k].name == s[k].name;
    }
    forall k | 0 <= k < |t| ensures Bumped(t, xs')[k] == (Bumped(s, xs) + [Item(x.name, Sum(xs, x.name))])[k] {
      if k < |s| {
        assert s[k].name in NameSet(s);
        assert Sum(xs, s[k].name) == Sum(xs', s[k].name);
      } else {
        assert Sum(xs, x.name) == x.quantity + Sum(xs', x.name);
      }
    }
  }

  /** The view after merging the first item equals the view of the whole list. */
  lemma MergeCase(s: seq<Item>, xs: seq<Item>, i: nat, t: seq<Item>)
    requires UniqueNames(s) && xs != [] && i < |s| && s[i].name == xs[0].name
    requires t == s[i := Item(s[i].name, s[i].quantity + xs[0].quantity)]
    ensures Bumped(t, xs[1..]) + Fresh(NewNames(NameSet(t), xs[1..]), xs[1..])
         == Bumped(s, xs) + Fresh(NewNames(NameSet(s), xs), xs)
  {
    ViewMerge(s, xs, i, t);
    var ns := NewNames(NameSet(s), xs[1..]);
    assert forall k :: 0 <= k < |ns| ==> ns[k] != xs[0].name by {
      assert xs[0].name in NameSet(s);
    }
    FreshAgree(ns, xs[1..], xs);
  }

  /** The view after appending the first item equals the view of the whole list. */
  lemma AppendCase(s: seq<Item>, xs: seq<Item>, t: seq<Item>)
    requires xs != [] && xs[0].name !in NameSet(s) && Positive(xs)
    requires t == s + [Item(xs[0].name, xs[0].quantity)]
    ensures Bumped(t, xs[1..]) + Fresh(NewNames(NameSet(t), xs[1..]), xs[1..])
         == Bumped(s, xs) + Fresh(NewNames(NameSet(s), xs), xs)
  {
    var x := xs[0];
    var xs' := xs[1..];
    ViewAppend(s, xs, t);
    var ns' := NewNames(NameSet(t), xs');
    assert forall k :: 0 <= k < |ns'| ==> ns'[k] != x.name;
    FreshAgree(ns', xs', xs);
    assert Positive(xs') by {
      assert forall k :: 0 <= k < |xs'| ==> xs'[k] == xs[k + 1];
    }
    SumNonNegative(xs', x.name);
    assert Sum(xs, x.name) > 0;
    var e := Item(x.name, Sum(xs, x.name));
    var ns := NewNames(NameSet(s), xs);
    assert ns == [x.name] + ns';
    assert ns[1..] == ns';
    assert Fresh(ns, xs) == [e] + Fresh(ns', xs);
    var b := Bumped(s, xs);
    var f' := Fresh(ns', xs');
    assert Bumped(t, xs') + f' == (b + [e]) + f';
    ConcatAssoc(b, [e], f');
  }

  lemma ConcatAssoc<T>(a: seq<T>, b: seq<T>, c: seq<T>)
    ensures (a + b) + c == a + (b + c)
  {
  }

  /** A whole add raises the existing entries and appends the new names in order of first appearance. */
  lemma {:induction false} AddAllView(s: seq<Item>, xs: seq<Item>)
    requires UniqueNames(s) && Positive(xs)
    ensures AddAll(s, xs) == Bumped(s, xs) + Fresh(NewNames(NameSet(s), xs), xs)
    decreases xs
  {
    if xs == [] {
      BumpedNothing(s);
      FreshNothing(NewNames(NameSet(s), xs));
    } else {
      var x := xs[0];
      var xs' := xs[1..];
      var t := AddOne(s, x);
      assert AddAll(s, xs) == AddAll(t, xs');
      assert Positive(xs') by {
        assert forall k :: 0 <= k < |xs'| ==> xs'[k] == xs[k + 1];
      }
      AddOneUnique(s, x);
      AddAllView(t, xs');
      match Find(s, x.name)
      case Some(i) =>
        MergeCase(s, xs, i, t);
      case None =>
        assert x.name !in NameSet(s);
        AppendCase(s, xs, t);
    }
  }

  lemma UpdatePrefix<T>(b: seq<T>, f: seq<T>, i: nat, x: T)
    requires i < |b|
    ensures (b + f)[i := x] == b[i := x] + f
  {
  }

  /** Removing an item whose entry sits at index `i` of the head `b` of `b + f`, and stays positive. */
  lemma RemoveInHead(b: seq<Item>, f: seq<Item>, i: nat, r: Item, q: int)
    requires i < |b| && Find(b + f, r.name) == Some(i)
    requires b[i].quantity == r.quantity + q && q > 0
    ensures RemoveOne(b + f, r) == b[i := Item(r.name, q)] + f
  {
    assert (b + f)[i] == b[i];
    RemoveOneAt(b + f, r, i);
    UpdatePrefix(b, f, i, Item(r.name, q));
  }

  /** Removing an item whose name is one of the original entries: the lowered quantity stays
      positive, and the appended entries are left alone. */
  lemma BumpedStep(s: seq<Item>, ns: seq<string>, rest: seq<Item>, i: nat)
    requires Positive(s) && Positive(rest) && rest != []
    requires i < |s| && s[i].name == rest[0].name
    requires forall k :: 0 <= k < |ns| ==> ns[k] != rest[0].name
    ensures s[i].quantity + Sum(rest[1..], rest[0].name) > 0
    ensures Bumped(s, rest)[i].quantity == rest[0].quantity + (s[i].quantity + Sum(rest[1..], rest[0].name))
    ensures Fresh(ns, rest) == Fresh(ns, rest[1..])
  {
    assert forall k :: 0 <= k < |ns| ==> Sum(rest, ns[k]) == Sum(rest[1..], ns[k]);
    FreshAgree(ns, rest, rest[1..]);
    SumNonNegative(rest[1..], rest[0].name);
  }

  /** Removing an item whose name the add appended lowers or drops that appended entry. */
  lemma RemoveFromFresh(s: seq<Item>, ns: seq<string>, rest: seq<Item>)
    requires Positive(rest) && rest != [] && Distinct(ns) && rest[0].name in ns
    requires rest[0].name !in NameSet(s)
    requires UniqueNames(Bumped(s, rest) + Fresh(ns, rest))
    ensures RemoveOne(Bumped(s, rest) + Fresh(ns, rest), rest[0]) == Bumped(s, rest[1..]) + Fresh(ns, rest[1..])
  {
    var r := rest[0];
    var b := Bumped(s, rest);
    var f := Fresh(ns, rest);
    BumpedSkip(s, rest);
    var j := FreshStep(ns, rest);
    var q := Sum(rest[1..], r.name);
    SumNonNegative(rest[1..], r.name);
    assert (b + f)[|b| + j] == f[j];
    FindUnique(b + f, |b| + j);
    RemoveInTail(b, f, j, r, q);
  }

  /** The view has unique names: the original ones, then distinct new ones. */
  lemma ViewUnique(s: seq<Item>, ns: seq<string>, rest: seq<Item>)
    requires UniqueNames(s) && Distinct(ns) && forall k :: 0 <= k < |ns| ==> ns[k] !in NameSet(s)
    ensures UniqueNames(Bumped(s, rest) + Fresh(ns, rest))
  {
    var b := Bumped(s, rest);
    var f := Fresh(ns, rest);
    FreshFacts(ns, rest);
    FreshUnique(ns, rest);
    assert forall i, j :: 0 <= i < |b| && 0 <= j < |f| ==> b[i].name != f[j].name by {
      forall i, j | 0 <= i < |b| && 0 <= j < |f| ensures b[i].name != f[j].name {
        assert b[i].name in NameSet(s);
      }
    }
    assert UniqueNames(b) by {
      assert forall k :: 0 <= k < |s| ==> b[k].name == s[k].name;
    }
    UniqueConcat(b, f);
  }

  /** One removal step turns the view for `rest` into the view for `rest[1..]`. */
  lemma RemoveStep(s: seq<Item>, ns: seq<string>, rest: seq<Item>)
    requires UniqueNames(s) && Positive(s) && Positive(rest) && rest != []
    requires Distinct(ns) && forall k :: 0 <= k < |ns| ==> ns[k] !in NameSet(s)
    requires rest[0].name in NameSet(s) || rest[0].name in ns
    ensures RemoveOne(Bumped(s, rest) + Fresh(ns, rest), rest[0]) == Bumped(s, rest[1..]) + Fresh(ns, rest[1..])
  {
    var b := Bumped(s, rest);
    var f := Fresh(ns, rest);
    ViewUnique(s, ns, rest);
    if rest[0].name in NameSet(s) {
      var i :| 0 <= i < |s| && s[i].name == rest[0].name;
      assert (b + f)[i] == b[i];
      FindUnique(b + f, i);
      var q := s[i].quantity + Sum(rest[1..], rest[0].name);
      BumpedStep(s, ns, rest, i);
      RemoveInHead(b, f, i, rest[0], q);
      BumpedLower(s, rest, i, b[i := Item(rest[0].name, q)]);
    } else {
      RemoveFromFresh(s, ns, rest);
    }
  }

  /** Removing `rest` from its view gives back the original ledger. */
  lemma {:induction false} RemoveRest(s: seq<Item>, ns: seq<string>, rest: seq<Item>)
    requires UniqueNames(s) && Positive(s) && Positive(rest)
    requires Distinct(ns) && forall k :: 0 <= k < |ns| ==> ns[k] !in NameSet(s)
    requires forall k :: 0 <= k < |rest| ==> rest[k].name in NameSet(s) || rest[k].name in ns
    ensures RemoveAll(Bumped(s, rest) + Fresh(ns, rest), rest) == s
    decreases rest
  {
    if rest == [] {
      BumpedNothing(s);
      FreshNothing(ns);
    } else {
      RemoveStep(s, ns, rest);
      assert forall k :: 0 <= k < |rest[1..]| ==> rest[1..][k] == rest[k + 1];
      RemoveRest(s, ns, rest[1..]);
    }
  }

  /** Round trip: with unique names and positive quantities in the ledger and positive quantities in
      the list, removing what was just added restores the ledger, contents and order. */
  lemma RoundTrip(s: seq<Item>, xs: seq<Item>)
    requires UniqueNames(s) && Positive(s) && Positive(xs)
    ensures RemoveAll(AddAll(s, xs), xs) == s
  {
    AddAllView(s, xs);
    RemoveRest(s, NewNames(NameSet(s), xs), xs);
  }
}
