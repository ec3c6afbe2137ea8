/** The list of messages in memory: strictly ascending by sequence number, as the screen shows it. */
module Lines {
  import opened History

  datatype Line = Line(at: nat, msg: Stored)

  predicate Sorted(list: seq<Line>) {
    forall i, j :: 0 <= i < j < |list| ==> list[i].at < list[j].at
  }

  predicate Has(list: seq<Line>, at: nat) {
    exists i :: 0 <= i < |list| && list[i].at == at
  }

  /** The list as a store. */
  function AsStore(list: seq<Line>): (store: Store)
    ensures forall s :: s in store <==> Has(list, s)
  {
    if list == [] then map[]
    else
      var n := |list| - 1;
      assert list == list[..n] + [list[n]];
      AsStore(list[..n])[list[n].at := list[n].msg]
  }

  lemma AsStoreLast(list: seq<Line>, x: Line)
    ensures AsStore(list + [x]) == AsStore(list)[x.at := x.msg]
  {
    assert (list + [x])[..|list|] == list;
  }

  lemma {:induction false} AsStoreInsert(before: seq<Line>, x: Line, after: seq<Line>)
    requires !Has(after, x.at)
    ensures AsStore(before + [x] + after) == AsStore(before + after)[x.at := x.msg]
  {
    if after == [] {
      assert before + [x] + after == before + [x] && before + after == before;
      AsStoreLast(before, x);
    } else {
      var n := |after| - 1;
      assert before + [x] + after == (before + [x] + after[..n]) + [after[n]];
      assert before + after == (before + after[..n]) + [after[n]];
      assert !Has(after[..n], x.at) && after[n].at != x.at;
      AsStoreInsert(before, x, after[..n]);
      AsStoreLast(before + [x] + after[..n], after[n]);
      AsStoreLast(before + after[..n], after[n]);
    }
  }

  lemma HasLast(list: seq<Line>, x: Line, at: nat)
    ensures Has(list + [x], at) <==> Has(list, at) || x.at == at
  {
    var longer := list + [x];
    assert longer[|list|] == x;
    if i :| 0 <= i < |list| && list[i].at == at {
      assert longer[i] == list[i];
    }
  }

  lemma HasNone(at: nat)
    ensures !Has([], at) && AsStore([]) == map[]
  {}

  lemma NotAmong(list: seq<Line>, at: nat)
    requires !Has(list, at)
    ensures forall i :: 0 <= i < |list| ==> list[i].at != at
  {}

  lemma AboveAll(list: seq<Line>, at: nat)
    requires forall i :: 0 <= i < |list| ==> list[i].at < at
    ensures !Has(list, at)
  {}

  lemma SortedJoin(a: seq<Line>, x: Line, b: seq<Line>)
    requires Sorted(a) && Sorted(b)
    requires forall i :: 0 <= i < |a| ==> a[i].at < x.at
    requires forall i :: 0 <= i < |b| ==> x.at < b[i].at
    ensures Sorted(a + [x] + b)
  {
    var r := a + [x] + b;
    assert forall i :: 0 <= i < |a| ==> r[i] == a[i];
    assert r[|a|] == x;
    assert forall i :: |a| < i < |r| ==> r[i] == b[i - |a| - 1];
  }

  lemma BelowAll(list: seq<Line>, at: nat)
    requires forall i :: 0 <= i < |list| ==> at < list[i].at
    ensures !Has(list, at)
  {}

  lemma InsertAt(list: seq<Line>, p: nat, x: Line)
    requires Sorted(list) && p <= |list|
    requires forall i :: 0 <= i < p ==> list[i].at < x.at
    requires forall i :: p <= i < |list| ==> x.at < list[i].at
    ensures Sorted(list[..p] + [x] + list[p..])
    ensures AsStore(list[..p] + [x] + list[p..]) == AsStore(list)[x.at := x.msg]
  {
    Parts(list, p, x);
    var a, b := list[..p], list[p..];
    hide AsStore, Has, Sorted;
    BelowAll(b, x.at);
    SortedJoin(a, x, b);
    AsStoreInsert(a, x, b);
  }

  lemma Parts(list: seq<Line>, p: nat, x: Line)
    requires Sorted(list) && p <= |list|
    requires forall i :: 0 <= i < p ==> list[i].at < x.at
    requires forall i :: p <= i < |list| ==> x.at < list[i].at
    ensures list[..p] + list[p..] == list && Sorted(list[..p]) && Sorted(list[p..])
    ensures forall i :: 0 <= i < |list[..p]| ==> list[..p][i].at < x.at
    ensures forall i :: 0 <= i < |list[p..]| ==> x.at < list[p..][i].at
  {}

  /** Adds a message the list does not have and sorts. */
  method Insert(list: seq<Line>, at: nat, msg: Stored) returns (r: seq<Line>)
    requires Sorted(list) && !Has(list, at)
    ensures Sorted(r) && AsStore(r) == AsStore(list)[at := msg]
  {
    NotAmong(list, at);
    hide AsStore, Has;
    var p := |list|;
    while p > 0 && list[p - 1].at > at
      invariant 0 <= p <= |list|
      invariant forall j :: p <= j < |list| ==> list[j].at > at
    {
      p := p - 1;
    }
    InsertAt(list, p, Line(at, msg));
    r := list[..p] + [Line(at, msg)] + list[p..];
  }

  /** The list's first i entries, one of them replaced if it is there. */
  ghost predicate Replaced(list: seq<Line>, at: nat, msg: Stored, r: seq<Line>) {
    AsStore(r) == if Has(list, at) then AsStore(list)[at := msg] else AsStore(list)
  }

  lemma ReplacedLast(list: seq<Line>, x: Line, at: nat, msg: Stored, r: seq<Line>)
    requires Replaced(list, at, msg, r) && !Has(list, x.at)
    ensures Replaced(list + [x], at, msg, r + [if x.at == at then Line(at, msg) else x])
  {
    AsStoreLast(list, x);
    AsStoreLast(r, if x.at == at then Line(at, msg) else x);
    HasLast(list, x, at);
    hide AsStore, Has;
  }

  /** One more entry of a list. */
  lemma NextEntry(list: seq<Line>, i: nat)
    requires Sorted(list) && i < |list|
    ensures list[..i + 1] == list[..i] + [list[i]] && !Has(list[..i], list[i].at)
  {
    AboveAll(list[..i], list[i].at);
  }

  lemma SortedAlike(list: seq<Line>, r: seq<Line>)
    requires Sorted(list) && |r| == |list| && forall j :: 0 <= j < |list| ==> r[j].at == list[j].at
    ensures Sorted(r)
  {}

  lemma ReplacedNone(at: nat, msg: Stored)
    ensures Replaced([], at, msg, [])
  {
    HasNone(at);
  }

  lemma ReplacedMeans(list: seq<Line>, at: nat, msg: Stored, r: seq<Line>)
    requires Replaced(list, at, msg, r)
    ensures AsStore(r) == if Has(list, at) then AsStore(list)[at := msg] else AsStore(list)
  {}

  /** Replaces a message where the list has it. */
  method Replace(list: seq<Line>, at: nat, msg: Stored) returns (r: seq<Line>)
    requires Sorted(list)
    ensures Sorted(r)
    ensures AsStore(r) == if Has(list, at) then AsStore(list)[at := msg] else AsStore(list)
  {
    hide *;
    r := [];
    var i := 0;
    ReplacedNone(at, msg);
    assert list[..0] == [] && list[..|list|] == list;
    while i < |list|
      invariant 0 <= i <= |list| && |r| == i
      invariant forall j :: 0 <= j < i ==> r[j].at == list[j].at
      invariant Replaced(list[..i], at, msg, r)
    {
      NextEntry(list, i);
      ReplacedLast(list[..i], list[i], at, msg, r);
      r := r + [if list[i].at == at then Line(at, msg) else list[i]];
      i := i + 1;
    }
    SortedAlike(list, r);
    ReplacedMeans(list, at, msg, r);
  }

  /** The stored messages that are kept. */
  ghost function Filtered(store: Store, keep: (nat, Stored) -> bool): Store {
    map s | s in store && keep(s, store[s]) :: store[s]
  }

  lemma FilteredLast(list: seq<Line>, x: Line, keep: (nat, Stored) -> bool)
    requires !Has(list, x.at)
    ensures Filtered(AsStore(list + [x]), keep)
            == if keep(x.at, x.msg) then Filtered(AsStore(list), keep)[x.at := x.msg] else Filtered(AsStore(list), keep)
  {
    AsStoreLast(list, x);
    hide AsStore;
  }

  lemma SortedLast(list: seq<Line>, x: Line)
    requires Sorted(list) && forall i :: 0 <= i < |list| ==> list[i].at < x.at
    ensures Sorted(list + [x])
  {}

  /** r is what is kept of a list that ends below `bound`. */
  ghost predicate Sifted(list: seq<Line>, keep: (nat, Stored) -> bool, r: seq<Line>, bound: nat) {
    && Sorted(r) && (forall i :: 0 <= i < |r| ==> r[i].at < bound)
    && AsStore(r) == Filtered(AsStore(list), keep)
  }

  lemma SiftedLast(list: seq<Line>, x: Line, keep: (nat, Stored) -> bool, r: seq<Line>)
    requires Sifted(list, keep, r, x.at) && forall i :: 0 <= i < |list| ==> list[i].at < x.at
    ensures Sifted(list + [x], keep, if keep(x.at, x.msg) then r + [x] else r, x.at + 1)
  {
    AboveAll(list, x.at);
    hide AsStore, Filtered, Has, Sorted;
    FilteredLast(list, x, keep);
    if keep(x.at, x.msg) {
      AsStoreLast(r, x);
      SortedLast(r, x);
    }
  }

  lemma SiftedBelow(list: seq<Line>, keep: (nat, Stored) -> bool, r: seq<Line>, bound: nat, higher: nat)
    requires Sifted(list, keep, r, bound) && bound <= higher
    ensures Sifted(list, keep, r, higher)
  {
    hide AsStore, Filtered;
  }

  lemma SiftedNone(keep: (nat, Stored) -> bool)
    ensures Sifted([], keep, [], 0)
  {}

  lemma SiftedMeans(list: seq<Line>, keep: (nat, Stored) -> bool, r: seq<Line>, bound: nat)
    requires Sifted(list, keep, r, bound)
    ensures Sorted(r) && AsStore(r) == Filtered(AsStore(list), keep)
  {}

  lemma EarlierAreBelow(list: seq<Line>, i: nat)
    requires Sorted(list) && i < |list|
    ensures list[..i + 1] == list[..i] + [list[i]]
    ensures forall j :: 0 <= j < |list[..i]| ==> list[..i][j].at < list[i].at
    ensures i > 0 ==> list[i - 1].at < list[i].at
  {}

  /** Keeps the messages a test lets through. */
  method Filter(list: seq<Line>, keep: (nat, Stored) -> bool) returns (r: seq<Line>)
    requires Sorted(list)
    ensures Sorted(r) && AsStore(r) == Filtered(AsStore(list), keep)
  {
    hide Sifted, Sorted, AsStore, Filtered, Has;
    r := [];
    ghost var bound := 0;
    SiftedNone(keep);
    assert list[..0] == [] && list[..|list|] == list;
    var i := 0;
    while i < |list|
      invariant 0 <= i <= |list| && bound == (if i == 0 then 0 else list[i - 1].at + 1)
      invariant Sifted(list[..i], keep, r, bound)
    {
      EarlierAreBelow(list, i);
      SiftedBelow(list[..i], keep, r, bound, list[i].at);
      SiftedLast(list[..i], list[i], keep, r);
      if keep(list[i].at, list[i].msg) {
        r := r + [list[i]];
      }
      bound := list[i].at + 1;
      i := i + 1;
    }
    SiftedMeans(list, keep, r, bound);
  }
}
