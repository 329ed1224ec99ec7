/**
 Walking the entry lists of an index over a token range. The cursor functions
 describe every position the iterators can take; the classes move exactly so.
 */
module Cursors {
  import opened Packets

  /** The lists an index holds; a key is absent while its list pointer is null. */
  type Lists = map<nat, seq<nat>>

  function Lookup(index: Lists, tok: nat): Option<seq<nat>> {
    if tok in index then Some(index[tok]) else None
  }

  /** Reference: all entries for tokens lo to hi, in token then position order. */
  function Flat(index: Lists, lo: nat, hi: nat): seq<nat>
    decreases hi + 1 - lo
  {
    if lo > hi then [] else (if lo in index then index[lo] else []) + Flat(index, lo + 1, hi)
  }

  datatype Pos = Pos(tok: nat, idx: int)

  /** The next token after t with a list, at most hi + 1. */
  function NextTok(index: Lists, t: nat, hi: nat): (t': nat)
    requires t <= hi
    ensures t < t' <= hi + 1
    ensures t' <= hi ==> t' in index
    ensures forall u :: t < u < t' ==> u !in index
    decreases hi - t
  {
    if t + 1 in index || t == hi then t + 1 else NextTok(index, t + 1, hi)
  }

  /** One call of advance(). */
  function AdvancePos(index: Lists, hi: nat, p: Pos): Pos
    requires p.tok <= hi + 1
  {
    if p.tok == hi + 1 then p
    else if p.tok !in index || p.idx + 1 == |index[p.tok]| then Pos(NextTok(index, p.tok, hi), 0)
    else p.(idx := p.idx + 1)
  }

  /** begin(): one advance from just before the first list. */
  function BeginPos(index: Lists, lo: nat, hi: nat): Pos
    requires lo <= hi
  { AdvancePos(index, hi, Pos(lo, -1)) }

  predicate NoEmpty(index: Lists, lo: nat, hi: nat) {
    forall t :: lo <= t <= hi && t in index ==> index[t] != []
  }

  /** On an entry, or at the end. */
  predicate OnEntry(index: Lists, hi: nat, p: Pos) {
    p.tok <= hi + 1 && (p.tok == hi + 1 || (p.tok in index && 0 <= p.idx < |index[p.tok]|))
  }

  /** The entries from a position on, and those strictly after it. */
  function Rest(index: Lists, hi: nat, p: Pos): seq<nat>
    requires OnEntry(index, hi, p)
  {
    if p.tok == hi + 1 then [] else index[p.tok][p.idx..] + Flat(index, p.tok + 1, hi)
  }

  function After(index: Lists, hi: nat, p: Pos): seq<nat>
    requires p.tok in index ==> -1 <= p.idx < |index[p.tok]|
  {
    if p.tok > hi then []
    else (if p.tok in index then index[p.tok][p.idx + 1..] else []) + Flat(index, p.tok + 1, hi)
  }

  lemma {:induction false} FlatSkips(index: Lists, t: nat, hi: nat)
    requires t <= hi
    ensures Flat(index, t + 1, hi) == Flat(index, NextTok(index, t, hi), hi)
    decreases hi - t
  {
    if t + 1 !in index && t != hi { FlatSkips(index, t + 1, hi); }
  }

  /** An advance over non-empty lists drops exactly the current entry. */
  lemma AdvanceRest(index: Lists, hi: nat, p: Pos)
    requires p.tok <= hi && NoEmpty(index, p.tok + 1, hi)
    requires p.tok in index ==> -1 <= p.idx < |index[p.tok]|
    ensures OnEntry(index, hi, AdvancePos(index, hi, p))
    ensures Rest(index, hi, AdvancePos(index, hi, p)) == After(index, hi, p)
  {
    var q := AdvancePos(index, hi, p);
    if q.tok != p.tok {
      FlatSkips(index, p.tok, hi);
      if q.tok <= hi { assert index[q.tok][0..] == index[q.tok]; }
    }
  }

  lemma RestIsEntryThenAfter(index: Lists, hi: nat, p: Pos)
    requires OnEntry(index, hi, p) && p.tok <= hi
    ensures Rest(index, hi, p) == [index[p.tok][p.idx]] + After(index, hi, p)
  {
    assert index[p.tok][p.idx..] == [index[p.tok][p.idx]] + index[p.tok][p.idx + 1..];
  }

  /** From an empty first list the walk goes on to the next list. */
  lemma BeginAfterEmpty(index: Lists, lo: nat, hi: nat)
    requires lo <= hi && NoEmpty(index, lo + 1, hi) && lo in index && index[lo] == []
    ensures OnEntry(index, hi, BeginPos(index, lo, hi))
    ensures Rest(index, hi, BeginPos(index, lo, hi)) == Flat(index, lo, hi)
  {
    var q := Pos(NextTok(index, lo, hi), 0);
    assert BeginPos(index, lo, hi) == q;
    FlatSkips(index, lo, hi);
    assert Flat(index, lo, hi) == Flat(index, q.tok, hi);
    if q.tok <= hi {
      assert index[q.tok] != [];
      assert index[q.tok][0..] == index[q.tok];
    }
  }

  lemma BeginRest(index: Lists, lo: nat, hi: nat)
    requires lo <= hi && NoEmpty(index, lo + 1, hi)
    ensures OnEntry(index, hi, BeginPos(index, lo, hi))
    ensures Rest(index, hi, BeginPos(index, lo, hi)) == Flat(index, lo, hi)
  {
    if lo in index && index[lo] == [] {
      BeginAfterEmpty(index, lo, hi);
    } else {
      AdvanceRest(index, hi, Pos(lo, -1));
      assert lo in index ==> index[lo][0..] == index[lo];
    }
  }

  // ----- when the walk ends -----

  function AdvanceTimes(index: Lists, hi: nat, p: Pos, n: nat): (q: Pos)
    requires p.tok <= hi + 1
    ensures q.tok <= hi + 1
    decreases n
  {
    if n == 0 then p else AdvanceTimes(index, hi, AdvancePos(index, hi, p), n - 1)
  }

  lemma {:induction false} WalkEnds(index: Lists, hi: nat, p: Pos) returns (n: nat)
    requires OnEntry(index, hi, p) && NoEmpty(index, p.tok + 1, hi)
    ensures AdvanceTimes(index, hi, p, n).tok == hi + 1 && n == |Rest(index, hi, p)|
    decreases |Rest(index, hi, p)|
  {
    if p.tok == hi + 1 {
      n := 0;
    } else {
      AdvanceRest(index, hi, p);
      RestIsEntryThenAfter(index, hi, p);
      var m := WalkEnds(index, hi, AdvancePos(index, hi, p));
      n := m + 1;
    }
  }

  /** An empty list at t traps the cursor: it never gets past t. */
  lemma {:induction false} EmptyListTraps(index: Lists, hi: nat, t: nat, p: Pos, n: nat)
    requires t <= hi && t in index && index[t] == []
    requires p.tok < t || (p.tok == t && p.idx >= 0)
    ensures AdvanceTimes(index, hi, p, n).tok <= t
    decreases n
  {
    if n > 0 { EmptyListTraps(index, hi, t, AdvancePos(index, hi, p), n - 1); }
  }

  /** n advances from begin() reach end(). */
  ghost predicate EndsAfter(index: Lists, lo: nat, hi: nat, n: nat)
    requires lo <= hi
  { AdvanceTimes(index, hi, BeginPos(index, lo, hi), n).tok == hi + 1 }

  /** The walk from begin() reaches end() exactly when no list after the first
      token of the range is empty. */
  lemma WalkEndsExactly(index: Lists, lo: nat, hi: nat)
    requires lo <= hi
    ensures (exists n: nat :: EndsAfter(index, lo, hi, n)) <==> NoEmpty(index, lo + 1, hi)
  {
    var p := BeginPos(index, lo, hi);
    if NoEmpty(index, lo + 1, hi) {
      BeginRest(index, lo, hi);
      var n := WalkEnds(index, hi, p);
      assert EndsAfter(index, lo, hi, n);
    } else {
      var t :| lo + 1 <= t <= hi && t in index && index[t] == [];
      forall n: nat ensures AdvanceTimes(index, hi, p, n).tok <= t { EmptyListTraps(index, hi, t, p, n); }
    }
  }

  // ----- which positions a walk reads -----

  /** Position q lies at or after p and holds an entry. */
  predicate Ahead(index: Lists, hi: nat, p: Pos, q: Pos) {
    && q.tok <= hi && q.tok in index && 0 <= q.idx < |index[q.tok]|
    && (p.tok < q.tok || (p.tok == q.tok && p.idx <= q.idx))
  }

  /** An advance skips no entry. */
  lemma AdvanceSkipsNone(index: Lists, hi: nat, p: Pos, q: Pos)
    requires p.tok <= hi && OnEntry(index, hi, p) && Ahead(index, hi, p, q) && p != q
    ensures Ahead(index, hi, AdvancePos(index, hi, p), q)
  {
  }

  lemma AdvanceStays(index: Lists, hi: nat, p: Pos)
    requires OnEntry(index, hi, p) && NoEmpty(index, p.tok + 1, hi)
    ensures OnEntry(index, hi, AdvancePos(index, hi, p)) && NoEmpty(index, AdvancePos(index, hi, p).tok + 1, hi)
  {
    if p.tok <= hi { AdvanceRest(index, hi, p); }
  }

  /** A walk that ends has stood on every entry from its start on. */
  lemma {:induction false} VisitsAll(index: Lists, hi: nat, p: Pos, n: nat, q: Pos) returns (k: nat)
    requires OnEntry(index, hi, p) && NoEmpty(index, p.tok + 1, hi) && AdvanceTimes(index, hi, p, n).tok == hi + 1
    requires Ahead(index, hi, p, q)
    ensures k < n && AdvanceTimes(index, hi, p, k) == q
    decreases n
  {
    if p == q {
      k := 0;
    } else {
      AdvanceSkipsNone(index, hi, p, q);
      AdvanceStays(index, hi, p);
      var m := VisitsAll(index, hi, AdvancePos(index, hi, p), n - 1, q);
      k := m + 1;
    }
  }

  /** And it stands on nothing but entries. */
  lemma {:induction false} VisitsOnly(index: Lists, hi: nat, p: Pos, k: nat)
    requires OnEntry(index, hi, p) && NoEmpty(index, p.tok + 1, hi)
    ensures OnEntry(index, hi, AdvanceTimes(index, hi, p, k))
    ensures p.tok <= AdvanceTimes(index, hi, p, k).tok
    decreases k
  {
    if k > 0 {
      AdvanceStays(index, hi, p);
      VisitsOnly(index, hi, AdvancePos(index, hi, p), k - 1);
    }
  }

  /** Every entry of the range lies ahead of begin(). */
  lemma BeginAhead(index: Lists, lo: nat, hi: nat, q: Pos)
    requires lo <= hi && lo <= q.tok <= hi && q.tok in index && 0 <= q.idx < |index[q.tok]|
    ensures Ahead(index, hi, BeginPos(index, lo, hi), q)
  {
  }

  /** The walk from begin() ends, and every position it stands on before can be read. */
  ghost predicate WalkReads(index: Lists, lo: nat, hi: nat, readable: Pos -> bool)
    requires lo <= hi
  {
    exists n: nat :: EndsAfter(index, lo, hi, n) && CanRead(index, lo, hi, readable, n)
  }

  ghost predicate CanRead(index: Lists, lo: nat, hi: nat, readable: Pos -> bool, n: nat)
    requires lo <= hi
  {
    forall k: nat :: k < n && AdvanceTimes(index, hi, BeginPos(index, lo, hi), k).tok <= hi ==>
      readable(AdvanceTimes(index, hi, BeginPos(index, lo, hi), k))
  }

  ghost predicate AllReadable(index: Lists, lo: nat, hi: nat, readable: Pos -> bool) {
    forall t: nat, i: nat :: lo <= t <= hi && t in index && i < |index[t]| ==> readable(Pos(t, i))
  }

  /** That is so exactly when no list after the first token is empty and every entry of the
      range can be read. */
  lemma WalkReadsExactly(index: Lists, lo: nat, hi: nat, readable: Pos -> bool)
    requires lo <= hi
    ensures WalkReads(index, lo, hi, readable) <==> NoEmpty(index, lo + 1, hi) && AllReadable(index, lo, hi, readable)
  {
    if WalkReads(index, lo, hi, readable) { ReadsAll(index, lo, hi, readable); }
    if NoEmpty(index, lo + 1, hi) && AllReadable(index, lo, hi, readable) { AllReads(index, lo, hi, readable); }
  }

  lemma ReadsAll(index: Lists, lo: nat, hi: nat, readable: Pos -> bool)
    requires lo <= hi && WalkReads(index, lo, hi, readable)
    ensures NoEmpty(index, lo + 1, hi) && AllReadable(index, lo, hi, readable)
  {
    var p := BeginPos(index, lo, hi);
    var n: nat :| EndsAfter(index, lo, hi, n) && CanRead(index, lo, hi, readable, n);
    WalkEndsExactly(index, lo, hi);
    BeginRest(index, lo, hi);
    forall t: nat, i: nat | lo <= t <= hi && t in index && i < |index[t]| ensures readable(Pos(t, i)) {
      BeginAhead(index, lo, hi, Pos(t, i));
      var k := VisitsAll(index, hi, p, n, Pos(t, i));
    }
  }

  lemma AllReads(index: Lists, lo: nat, hi: nat, readable: Pos -> bool)
    requires lo <= hi && NoEmpty(index, lo + 1, hi) && AllReadable(index, lo, hi, readable)
    ensures WalkReads(index, lo, hi, readable)
  {
    var p := BeginPos(index, lo, hi);
    BeginRest(index, lo, hi);
    var n := WalkEnds(index, hi, p);
    forall k: nat | k < n && AdvanceTimes(index, hi, p, k).tok <= hi ensures readable(AdvanceTimes(index, hi, p, k)) {
      VisitsOnly(index, hi, p, k);
      var q := AdvanceTimes(index, hi, p, k);
      assert q == Pos(q.tok, q.idx);
    }
    assert EndsAfter(index, lo, hi, n) && CanRead(index, lo, hi, readable, n);
  }

  // ----- what a filtered walk yields -----

  /** The entries below a bound, in order. */
  function Below(f: seq<nat>, max: nat): seq<nat> {
    if f == [] then [] else (if f[0] < max then [f[0]] else []) + Below(f[1..], max)
  }

  /** Skip entries at or above a bound. */
  function SkipHigh(f: seq<nat>, max: nat): (r: seq<nat>)
    ensures |r| <= |f|
    ensures r != [] ==> r[0] < max
    ensures Below(r, max) == Below(f, max)
  {
    if f == [] || f[0] < max then f else SkipHigh(f[1..], max)
  }

  /** What a loop from begin() to end() sees: the first entry unconditionally, then
      the later entries below the bound. */
  function Yield(f: seq<nat>, max: nat): seq<nat> {
    if f == [] then [] else [f[0]] + Below(f[1..], max)
  }

  predicate AllBelow(f: seq<nat>, max: nat) { forall i :: 0 <= i < |f| ==> f[i] < max }

  lemma {:induction false} BelowAll(f: seq<nat>, max: nat)
    requires AllBelow(f, max)
    ensures Below(f, max) == f
  {
    if f != [] { BelowAll(f[1..], max); }
  }

  lemma YieldAll(f: seq<nat>, max: nat)
    requires AllBelow(f, max)
    ensures Yield(f, max) == f
  {
    if f != [] { BelowAll(f[1..], max); }
  }

  /** What is still to be seen: at the first entry, or later. */
  function ToSee(first: bool, rest: seq<nat>, max: nat): seq<nat> {
    if first then Yield(rest, max) else Below(rest, max)
  }

  lemma ToSeeStep(out: seq<nat>, first: bool, rest: seq<nat>, max: nat)
    requires rest != [] && (first || rest[0] < max)
    ensures out + [rest[0]] + ToSee(false, SkipHigh(rest[1..], max), max) == out + ToSee(first, rest, max)
  {
    assert ToSee(first, rest, max) == [rest[0]] + ToSee(false, SkipHigh(rest[1..], max), max);
  }

  lemma {:induction false} BelowMembers(f: seq<nat>, max: nat, x: nat)
    ensures x in Below(f, max) <==> x in f && x < max
  {
    if f != [] { BelowMembers(f[1..], max, x); }
  }

  /** Some list of the range holds x. */
  ghost predicate Listed(index: Lists, lo: nat, hi: nat, x: nat) {
    exists t :: lo <= t <= hi && t in index && x in index[t]
  }

  lemma {:induction false} FlatMembers(index: Lists, lo: nat, hi: nat, x: nat)
    ensures x in Flat(index, lo, hi) <==> Listed(index, lo, hi, x)
    decreases hi + 1 - lo
  {
    if lo <= hi {
      FlatMembers(index, lo + 1, hi, x);
      if lo in index && x in index[lo] { assert Listed(index, lo, hi, x); }
    }
  }
}
