/**
 * The chain the player's message handler runs on an `announce-skip-times` payload: every entry
 * goes through `CommentAttributes.create`, then generic records are hidden when a specific one
 * exists, the rest are sorted by time (a stable sort), and a record survives only when no earlier
 * record of the sorted list lies within TIME_DELTA seconds of it.
 */
module Reconcile {
  import opened Wrappers
  import opened Attributes
  import opened Patterns

  /** TIME_DELTA: announced times this many seconds apart or closer count as the same moment. */
  const TimeDelta := 5

  /** TRY_SKIP_GENERIC: hide generic records as soon as one record asks to skip the others. */
  const TrySkipGeneric := true

  /** One entry `{time, timeString, comment}` of the `announce-skip-times` payload. */
  datatype Announced = Announced(time: int, timeString: string, comment: string)

  /** `a` is an in-order selection of elements of `b`. */
  predicate IsSubsequence<T(==)>(a: seq<T>, b: seq<T>)
    decreases |b|
  {
    a == [] ||
    (b != [] && ((a[0] == b[0] && IsSubsequence(a[1..], b[1..])) || IsSubsequence(a, b[1..])))
  }

  lemma {:induction false} SubsequenceOfSelf<T>(a: seq<T>)
    ensures IsSubsequence(a, a)
    decreases |a|
  {
    if a != [] {
      SubsequenceOfSelf(a[1..]);
    }
  }

  lemma {:induction false} SubsequenceMembers<T>(a: seq<T>, b: seq<T>)
    requires IsSubsequence(a, b)
    ensures forall x :: x in a ==> x in b
    decreases |b|
  {
    if a != [] {
      assert a == [a[0]] + a[1..] && b == [b[0]] + b[1..];
      if a[0] == b[0] && IsSubsequence(a[1..], b[1..]) {
        SubsequenceMembers(a[1..], b[1..]);
      } else {
        SubsequenceMembers(a, b[1..]);
      }
    }
  }

  // The visibility filter.

  /** Some record asks to skip the others (`self.some(({skipOthers}) => skipOthers)`). */
  predicate AnySkipOthers(cs: seq<Candidate>) {
    exists k :: 0 <= k < |cs| && cs[k].skipOthers
  }

  /** `.filter(({showMe}) => showMe === true)`. */
  function ShownOnly(cs: seq<Candidate>): (r: seq<Candidate>)
    ensures forall c :: c in r <==> c in cs && c.showMe
    ensures IsSubsequence(r, cs)
  {
    if cs == [] then []
    else
      var rest := ShownOnly(cs[1..]);
      if cs[0].showMe then
        assert ([cs[0]] + rest)[1..] == rest;
        [cs[0]] + rest
      else
        rest
  }

  /** The filter keeps every copy of a shown record and no copy of a hidden one. */
  lemma {:induction false} ShownOnlyCounts(cs: seq<Candidate>)
    ensures forall c :: multiset(ShownOnly(cs))[c] == if c.showMe then multiset(cs)[c] else 0
    decreases |cs|
  {
    if cs != [] {
      var tail := cs[1..];
      ShownOnlyCounts(tail);
      assert cs == [cs[0]] + tail;
      assert multiset(cs) == multiset{cs[0]} + multiset(tail);
      var rest := ShownOnly(tail);
      if cs[0].showMe {
        assert ShownOnly(cs) == [cs[0]] + rest;
        assert multiset(ShownOnly(cs)) == multiset{cs[0]} + multiset(rest);
      } else {
        assert ShownOnly(cs) == rest;
      }
    }
  }

  /** The first `.filter` of the chain: hide records that are not shown once one skips others. */
  function Visible(cs: seq<Candidate>): seq<Candidate> {
    if TrySkipGeneric && AnySkipOthers(cs) then ShownOnly(cs) else cs
  }

  /**
   * The filter only removes records and keeps their order. When some record asks to skip the
   * others, exactly the records that are shown remain; otherwise every record remains.
   */
  lemma VisibleMeaning(cs: seq<Candidate>)
    ensures IsSubsequence(Visible(cs), cs)
    ensures AnySkipOthers(cs) ==> forall c :: c in Visible(cs) <==> c in cs && c.showMe
    ensures AnySkipOthers(cs) ==>
      forall c :: multiset(Visible(cs))[c] == if c.showMe then multiset(cs)[c] else 0
    ensures !AnySkipOthers(cs) ==> Visible(cs) == cs
  {
    if !AnySkipOthers(cs) {
      SubsequenceOfSelf(cs);
    } else {
      ShownOnlyCounts(cs);
    }
  }

  /**
   * For records built by the constructor: once one record is not generic, no generic record is
   * left, and every non-generic record is.
   */
  lemma VisibleHidesGeneric(cs: seq<Candidate>)
    requires forall c :: c in cs ==> WellFormed(c)
    requires exists c :: c in cs && c.kind != Generic
    ensures forall c :: c in Visible(cs) ==> c.kind != Generic
    ensures forall c :: c in cs && c.kind != Generic ==> c in Visible(cs)
  {
    var c :| c in cs && c.kind != Generic;
    var k :| 0 <= k < |cs| && cs[k] == c;
    assert AnySkipOthers(cs);
    VisibleMeaning(cs);
  }

  // The stable sort by time.

  predicate SortedByTime(s: seq<Candidate>) {
    forall i, j :: 0 <= i < j < |s| ==> s[i].time <= s[j].time
  }

  /** Places `c` before the first record whose time is not smaller. */
  function Insert(c: Candidate, s: seq<Candidate>): (r: seq<Candidate>)
    ensures multiset(r) == multiset(s) + multiset{c}
  {
    if s == [] || c.time <= s[0].time then [c] + s
    else
      assert s == [s[0]] + s[1..];
      [s[0]] + Insert(c, s[1..])
  }

  /** A record placed before a sorted list whose times are all at least its own. */
  lemma SortedCons(x: Candidate, t: seq<Candidate>)
    requires SortedByTime(t)
    requires forall y :: y in t ==> x.time <= y.time
    ensures SortedByTime([x] + t)
  {
    var r := [x] + t;
    forall i, j | 0 <= i < j < |r|
      ensures r[i].time <= r[j].time
    {
      assert r[j] == t[j - 1];
      if i > 0 {
        assert r[i] == t[i - 1];
      }
    }
  }

  /** Inserting into a sorted list keeps it sorted. */
  lemma {:induction false} InsertSorted(c: Candidate, s: seq<Candidate>)
    requires SortedByTime(s)
    ensures SortedByTime(Insert(c, s))
    decreases |s|
  {
    if s == [] || c.time <= s[0].time {
      forall y | y in s
        ensures c.time <= y.time
      {
        var k :| 0 <= k < |s| && s[k] == y;
      }
      SortedCons(c, s);
    } else {
      var rest := Insert(c, s[1..]);
      InsertSorted(c, s[1..]);
      forall y | y in rest
        ensures s[0].time <= y.time
      {
        assert y in multiset(rest);
        if y != c {
          assert y in multiset(s[1..]);
          var k :| 0 <= k < |s[1..]| && s[1..][k] == y;
          assert y == s[k + 1];
        }
      }
      SortedCons(s[0], rest);
    }
  }

  /**
   * `.sort((a, b) => a.time - b.time)`, an insertion sort: ascending by time, and a permutation.
   * ECMAScript requires `Array.prototype.sort` to be stable since its 2019 edition;
   * `SortKeepsTies` and `StableSortIsUnique` show this sort is that one.
   */
  function SortByTime(s: seq<Candidate>): (r: seq<Candidate>)
    ensures SortedByTime(r)
    ensures multiset(r) == multiset(s)
  {
    if s == [] then []
    else
      assert s == [s[0]] + s[1..];
      InsertSorted(s[0], SortByTime(s[1..]));
      Insert(s[0], SortByTime(s[1..]))
  }

  /** The records of `s` whose time is `t`, in order. */
  function WithTime(s: seq<Candidate>, t: int): (r: seq<Candidate>)
    ensures |r| <= |s|
  {
    if s == [] then []
    else (if s[0].time == t then [s[0]] else []) + WithTime(s[1..], t)
  }

  /** `WithTime` selects exactly the records of time `t`. */
  lemma {:induction false} WithTimeMembers(s: seq<Candidate>, t: int, c: Candidate)
    ensures c in WithTime(s, t) <==> c in s && c.time == t
    decreases |s|
  {
    if s != [] {
      WithTimeMembers(s[1..], t, c);
      assert s == [s[0]] + s[1..];
    }
  }

  lemma WithTimeCons(c: Candidate, s: seq<Candidate>, t: int)
    ensures WithTime([c] + s, t) == (if c.time == t then [c] else []) + WithTime(s, t)
  {
    assert ([c] + s)[1..] == s;
  }

  lemma {:induction false} InsertKeepsTies(c: Candidate, s: seq<Candidate>, t: int)
    ensures WithTime(Insert(c, s), t) == (if c.time == t then [c] else []) + WithTime(s, t)
    decreases |s|
  {
    if s == [] || c.time <= s[0].time {
      WithTimeCons(c, s, t);
    } else {
      var rest := Insert(c, s[1..]);
      assert Insert(c, s) == [s[0]] + rest;
      InsertKeepsTies(c, s[1..], t);
      WithTimeCons(s[0], rest, t);
      WithTimeCons(s[0], s[1..], t);
      assert s == [s[0]] + s[1..];
      var w1 := WithTime(s[1..], t);
      var hc := if c.time == t then [c] else [];
      if s[0].time == t {
        assert hc == [];
        assert WithTime(Insert(c, s), t) == [s[0]] + ([] + w1);
        assert [] + w1 == w1;
        assert [] + WithTime(s, t) == WithTime(s, t);
      } else {
        assert WithTime(Insert(c, s), t) == [] + (hc + w1);
        assert WithTime(s, t) == [] + w1;
        assert [] + (hc + w1) == hc + w1 == hc + ([] + w1);
      }
    }
  }

  /** Stability: the records of each time keep their input order. */
  lemma {:induction false} SortKeepsTies(s: seq<Candidate>, t: int)
    ensures WithTime(SortByTime(s), t) == WithTime(s, t)
    decreases |s|
  {
    if s != [] {
      SortKeepsTies(s[1..], t);
      InsertKeepsTies(s[0], SortByTime(s[1..]), t);
    }
  }

  /** Two sorted lists with the same records per time start with the same record. */
  lemma SameHeads(a: seq<Candidate>, b: seq<Candidate>)
    requires SortedByTime(a) && SortedByTime(b) && a != [] && b != []
    requires WithTime(a, a[0].time) == WithTime(b, a[0].time)
    requires WithTime(a, b[0].time) == WithTime(b, b[0].time)
    ensures a[0] == b[0]
  {
    var t0, t1 := a[0].time, b[0].time;
    WithTimeMembers(a, t0, a[0]);
    WithTimeMembers(b, t0, a[0]);
    var ka :| 0 <= ka < |b| && b[ka] == a[0];
    assert t1 <= t0 by { assert 0 <= ka ==> b[0].time <= b[ka].time; }
    WithTimeMembers(b, t1, b[0]);
    WithTimeMembers(a, t1, b[0]);
    var kb :| 0 <= kb < |a| && a[kb] == b[0];
    assert t0 <= t1 by { assert 0 <= kb ==> a[0].time <= a[kb].time; }
    var wa, wb := WithTime(a, t0), WithTime(b, t0);
    assert wa == [a[0]] + WithTime(a[1..], t0);
    assert wb == [b[0]] + WithTime(b[1..], t0);
    assert wa[0] == a[0] && wb[0] == b[0];
  }

  /** With equal heads, equal records per time carry over to the tails. */
  lemma SameTails(a: seq<Candidate>, b: seq<Candidate>, t: int)
    requires a != [] && b != [] && a[0] == b[0]
    requires WithTime(a, t) == WithTime(b, t)
    ensures WithTime(a[1..], t) == WithTime(b[1..], t)
  {
    assert a == [a[0]] + a[1..] && b == [b[0]] + b[1..];
    WithTimeCons(a[0], a[1..], t);
    WithTimeCons(b[0], b[1..], t);
    var head := if a[0].time == t then [a[0]] else [];
    assert WithTime(a[1..], t) == (head + WithTime(a[1..], t))[|head|..];
    assert WithTime(b[1..], t) == (head + WithTime(b[1..], t))[|head|..];
  }

  /** Lists with the same records per time are empty together. */
  lemma BothEmptyOrNeither(a: seq<Candidate>, b: seq<Candidate>)
    requires forall t :: WithTime(a, t) == WithTime(b, t)
    ensures a == [] <==> b == []
  {
    if a != [] {
      WithTimeMembers(a, a[0].time, a[0]);
      WithTimeMembers(b, a[0].time, a[0]);
    }
    if b != [] {
      WithTimeMembers(b, b[0].time, b[0]);
      WithTimeMembers(a, b[0].time, b[0]);
    }
  }

  /**
   * A sorted sequence is determined by the order of the records within each time: any stable
   * ascending sort of the same input gives the same result as `SortByTime`.
   */
  lemma {:induction false} StableSortIsUnique(a: seq<Candidate>, b: seq<Candidate>)
    requires SortedByTime(a) && SortedByTime(b)
    requires forall t :: WithTime(a, t) == WithTime(b, t)
    ensures a == b
    decreases |a|
  {
    BothEmptyOrNeither(a, b);
    if a != [] && b != [] {
      assert WithTime(a, a[0].time) == WithTime(b, a[0].time);
      assert WithTime(a, b[0].time) == WithTime(b, b[0].time);
      SameHeads(a, b);
      forall t
        ensures WithTime(a[1..], t) == WithTime(b[1..], t)
      {
        SameTails(a, b, t);
      }
      StableSortIsUnique(a[1..], b[1..]);
      assert a == [a[0]] + a[1..] && b == [b[0]] + b[1..];
    }
  }

  /** `SortByTime` is the stable ascending sort: the only sorted result that keeps ties in order. */
  lemma SortByTimeIsTheStableSort(s: seq<Candidate>, r: seq<Candidate>)
    requires SortedByTime(r)
    requires forall t :: WithTime(r, t) == WithTime(s, t)
    ensures r == SortByTime(s)
  {
    forall t
      ensures WithTime(r, t) == WithTime(SortByTime(s), t)
    {
      SortKeepsTies(s, t);
    }
    StableSortIsUnique(r, SortByTime(s));
  }

  /** A sorted list is left as it is. */
  lemma {:induction false} SortOfSorted(s: seq<Candidate>)
    requires SortedByTime(s)
    ensures SortByTime(s) == s
    decreases |s|
  {
    if s != [] {
      SortOfSorted(s[1..]);
      assert s == [s[0]] + s[1..];
    }
  }

  // The proximity filter.

  /** `it.time >= time - TIME_DELTA && it.time <= time + TIME_DELTA`. */
  predicate Near(x: int, t: int) {
    t - TimeDelta <= x <= t + TimeDelta
  }

  /** `self.findIndex(it => Near(it.time, t))` searching from `from`; -1 when nothing is near. */
  function FindIndexNear(s: seq<Candidate>, t: int, from: nat): (r: int)
    requires from <= |s|
    decreases |s| - from
    ensures r == -1 || (from <= r < |s| && Near(s[r].time, t))
    ensures r == -1 ==> forall k :: from <= k < |s| ==> !Near(s[k].time, t)
    ensures r != -1 ==> forall k :: from <= k < r ==> !Near(s[k].time, t)
  {
    if from == |s| then -1
    else if Near(s[from].time, t) then from
    else FindIndexNear(s, t, from + 1)
  }

  /** The second `.filter` keeps index `i` when `findIndex` of its time returns `i` itself. */
  predicate KeptAt(s: seq<Candidate>, i: nat)
    requires i < |s|
  {
    FindIndexNear(s, s[i].time, 0) == i
  }

  /** An entry is kept exactly when no earlier entry, kept or not, lies within TIME_DELTA. */
  lemma KeptAtMeaning(s: seq<Candidate>, i: nat)
    requires i < |s|
    ensures KeptAt(s, i) <==> forall j :: 0 <= j < i ==> !Near(s[j].time, s[i].time)
  {
  }

  /** The filter with index applied from position `i` on. */
  function KeepFrom(s: seq<Candidate>, i: nat): seq<Candidate>
    requires i <= |s|
    decreases |s| - i
  {
    if i == |s| then []
    else (if KeptAt(s, i) then [s[i]] else []) + KeepFrom(s, i + 1)
  }

  /** `.filter(({time}, index, self) => self.findIndex(...) === index)`. */
  function Dedup(s: seq<Candidate>): (r: seq<Candidate>)
    ensures |r| <= |s|
    ensures s != [] ==> r != [] && r[0] == s[0]
  {
    KeepFromLength(s, 0);
    KeepFrom(s, 0)
  }

  lemma {:induction false} KeepFromLength(s: seq<Candidate>, i: nat)
    requires i <= |s|
    ensures |KeepFrom(s, i)| <= |s| - i
    decreases |s| - i
  {
    if i < |s| {
      KeepFromLength(s, i + 1);
    }
  }

  /** No two records lie within TIME_DELTA of each other. */
  predicate Spread(s: seq<Candidate>) {
    forall a, b :: 0 <= a < b < |s| ==> !Near(s[a].time, s[b].time)
  }

  lemma {:induction false} KeepFromMembers(s: seq<Candidate>, i: nat)
    requires i <= |s|
    ensures forall x :: x in KeepFrom(s, i) ==> exists j :: i <= j < |s| && KeptAt(s, j) && s[j] == x
    decreases |s| - i
  {
    if i < |s| {
      KeepFromMembers(s, i + 1);
    }
  }

  lemma {:induction false} KeepFromSubsequence(s: seq<Candidate>, i: nat)
    requires i <= |s|
    ensures IsSubsequence(KeepFrom(s, i), s[i..])
    decreases |s| - i
  {
    if i < |s| {
      KeepFromSubsequence(s, i + 1);
      var rest := KeepFrom(s, i + 1);
      assert s[i..] != [] && s[i..][0] == s[i] && s[i..][1..] == s[i + 1..];
      if KeptAt(s, i) {
        assert ([s[i]] + rest)[0] == s[i];
        assert ([s[i]] + rest)[1..] == rest;
      } else {
        assert KeepFrom(s, i) == rest;
      }
    }
  }

  /** A record placed before a spread list, far from each of its records. */
  lemma SpreadCons(x: Candidate, t: seq<Candidate>)
    requires Spread(t)
    requires forall y :: y in t ==> !Near(x.time, y.time)
    ensures Spread([x] + t)
  {
    var r := [x] + t;
    forall a, b | 0 <= a < b < |r|
      ensures !Near(r[a].time, r[b].time)
    {
      assert r[b] == t[b - 1];
      if a > 0 {
        assert r[a] == t[a - 1];
      }
    }
  }

  /** Every later survivor is far from entry `i`, and not earlier when the input is sorted. */
  lemma LaterSurvivors(s: seq<Candidate>, i: nat)
    requires i < |s|
    ensures forall y :: y in KeepFrom(s, i + 1) ==> !Near(s[i].time, y.time)
    ensures SortedByTime(s) ==> forall y :: y in KeepFrom(s, i + 1) ==> s[i].time <= y.time
  {
    KeepFromMembers(s, i + 1);
    forall y | y in KeepFrom(s, i + 1)
      ensures !Near(s[i].time, y.time) && (SortedByTime(s) ==> s[i].time <= y.time)
    {
      var j :| i + 1 <= j < |s| && KeptAt(s, j) && s[j] == y;
      KeptAtMeaning(s, j);
    }
  }

  /** The survivors of a sorted list are sorted. */
  lemma {:induction false} KeepFromSorted(s: seq<Candidate>, i: nat)
    requires i <= |s| && SortedByTime(s)
    ensures SortedByTime(KeepFrom(s, i))
    decreases |s| - i
  {
    if i < |s| {
      KeepFromSorted(s, i + 1);
      if KeptAt(s, i) {
        LaterSurvivors(s, i);
        SortedCons(s[i], KeepFrom(s, i + 1));
      }
    }
  }

  /** The survivors lie more than TIME_DELTA apart. */
  lemma {:induction false} KeepFromApart(s: seq<Candidate>, i: nat)
    requires i <= |s|
    ensures Spread(KeepFrom(s, i))
    decreases |s| - i
  {
    if i < |s| {
      KeepFromApart(s, i + 1);
      if KeptAt(s, i) {
        LaterSurvivors(s, i);
        SpreadCons(s[i], KeepFrom(s, i + 1));
      }
    }
  }

  /**
   * The proximity filter: an in-order selection of its input, sorted if the input is, with every
   * two survivors more than TIME_DELTA apart; the first entry always survives.
   */
  lemma DedupMeaning(s: seq<Candidate>)
    ensures IsSubsequence(Dedup(s), s)
    ensures SortedByTime(s) ==> SortedByTime(Dedup(s))
    ensures Spread(Dedup(s))
    ensures s != [] ==> Dedup(s) != [] && Dedup(s)[0] == s[0]
  {
    KeepFromSubsequence(s, 0);
    assert s[0..] == s;
    if SortedByTime(s) {
      KeepFromSorted(s, 0);
    }
    KeepFromApart(s, 0);
  }

  lemma {:induction false} KeepFromSpread(s: seq<Candidate>, i: nat)
    requires i <= |s| && Spread(s)
    ensures KeepFrom(s, i) == s[i..]
    decreases |s| - i
  {
    if i < |s| {
      KeepFromSpread(s, i + 1);
      KeptAtMeaning(s, i);
      assert s[i..] == [s[i]] + s[i + 1..];
    }
  }

  /** On a list already spread more than TIME_DELTA apart, the proximity filter keeps everything. */
  lemma DedupOfSpread(s: seq<Candidate>)
    requires Spread(s)
    ensures Dedup(s) == s
  {
    KeepFromSpread(s, 0);
  }

  // The whole chain.

  /** filter, then sort, then the proximity filter: the order of the handler at `src/player.js:166-179`. */
  function ReconcileAll(cs: seq<Candidate>): seq<Candidate> {
    Dedup(SortByTime(Visible(cs)))
  }

  /**
   * The reconciled list is ascending by time, spread more than TIME_DELTA apart, an in-order
   * selection of the sorted visible records, made only of records of the input, and starts with
   * the earliest visible record.
   */
  lemma ReconcileMeaning(cs: seq<Candidate>)
    ensures SortedByTime(ReconcileAll(cs))
    ensures Spread(ReconcileAll(cs))
    ensures IsSubsequence(ReconcileAll(cs), SortByTime(Visible(cs)))
    ensures forall c :: c in ReconcileAll(cs) ==> c in Visible(cs) && c in cs
    ensures Visible(cs) != [] ==>
      ReconcileAll(cs) != [] && forall c :: c in Visible(cs) ==> ReconcileAll(cs)[0].time <= c.time
  {
    var v := Visible(cs);
    var sorted := SortByTime(v);
    DedupMeaning(sorted);
    SubsequenceMembers(ReconcileAll(cs), sorted);
    SortMembers(v);
    VisibleMeaning(cs);
    SubsequenceMembers(v, cs);
  }

  /** The sort keeps the same records, and its first record has the smallest time. */
  lemma SortMembers(s: seq<Candidate>)
    ensures forall c :: c in SortByTime(s) <==> c in s
    ensures s != [] ==> SortByTime(s) != [] && forall c :: c in s ==> SortByTime(s)[0].time <= c.time
  {
    var sorted := SortByTime(s);
    assert forall c :: c in sorted <==> c in multiset(sorted);
    assert forall c :: c in s <==> c in multiset(s);
    if s != [] {
      assert |sorted| == |multiset(s)| == |s|;
      forall c | c in s
        ensures sorted[0].time <= c.time
      {
        assert c in sorted;
        var k :| 0 <= k < |sorted| && sorted[k] == c;
      }
    }
  }

  /** For constructor-built records: once one is specific, no generic record is left. */
  lemma ReconcileHidesGeneric(cs: seq<Candidate>)
    requires forall c :: c in cs ==> WellFormed(c)
    requires exists c :: c in cs && c.kind != Generic
    ensures forall c :: c in ReconcileAll(cs) ==> c.kind != Generic
  {
    ReconcileMeaning(cs);
    VisibleHidesGeneric(cs);
  }

  /** The reconciled list passes the visibility filter untouched. */
  lemma VisibleOfReconciled(cs: seq<Candidate>)
    ensures Visible(ReconcileAll(cs)) == ReconcileAll(cs)
  {
    var r := ReconcileAll(cs);
    if AnySkipOthers(r) {
      ReconcileMeaning(cs);
      var k :| 0 <= k < |r| && r[k].skipOthers;
      var x := r[k];
      assert x in r;
      assert x in cs;
      var m :| 0 <= m < |cs| && cs[m] == x;
      assert AnySkipOthers(cs);
      VisibleMeaning(cs);
      assert forall c :: c in r ==> c.showMe;
      ShownOnlyOfShown(r);
    }
  }

  /** Reconciling a reconciled list changes nothing. */
  lemma ReconcileIdempotent(cs: seq<Candidate>)
    ensures ReconcileAll(ReconcileAll(cs)) == ReconcileAll(cs)
  {
    var r := ReconcileAll(cs);
    VisibleOfReconciled(cs);
    ReconcileMeaning(cs);
    SortOfSorted(r);
    DedupOfSpread(r);
  }

  lemma {:induction false} ShownOnlyOfShown(cs: seq<Candidate>)
    requires forall c :: c in cs ==> c.showMe
    ensures ShownOnly(cs) == cs
    decreases |cs|
  {
    if cs != [] {
      var tail := cs[1..];
      assert forall c :: c in tail ==> c in cs;
      ShownOnlyOfShown(tail);
      assert cs[0] in cs;
      assert ShownOnly(cs) == [cs[0]] + ShownOnly(tail);
      assert cs == [cs[0]] + tail;
    }
  }

  // The message handler.

  /** The only origin whose messages the player listens to. */
  const TrustedOrigin := "https://beta.crunchyroll.com"

  /** The message type that carries skip times. */
  const AnnounceType := "announce-skip-times"

  /** `CommentAttributes.create` applied to one payload entry. */
  function Created(a: Announced): Result<seq<Candidate>, CreateError> {
    Classify(a.comment, a.time, a.timeString)
  }

  /** The records `create` returns for one entry; none when it throws. */
  function Records(a: Announced): seq<Candidate> {
    match Created(a)
    case Ok(cs) => cs
    case Err(_) => []
  }

  /** `data.flatMap(create)`: the records of all entries in order; the first throw aborts it. */
  function CreateAll(items: seq<Announced>): (r: Result<seq<Candidate>, CreateError>)
    ensures r.Ok? ==> |r.value| >= |items|
  {
    if items == [] then Ok([])
    else
      var a := items[0];
      match Created(a)
      case Err(e) => Err(e)
      case Ok(cs) =>
        ClassifyWellFormed(a.comment, a.time, a.timeString);
        match CreateAll(items[1..])
        case Err(e) => Err(e)
        case Ok(rest) => Ok(cs + rest)
  }

  /**
   * The flat map fails exactly when some entry's `create` throws. Otherwise it holds every record
   * of every entry and nothing else, each built by the constructor, and at least one per entry.
   */
  lemma {:induction false} CreateAllMeaning(items: seq<Announced>)
    ensures CreateAll(items).Err? <==> exists i :: 0 <= i < |items| && Created(items[i]).Err?
    ensures CreateAll(items).Ok? ==>
      (forall c :: c in CreateAll(items).value ==>
        WellFormed(c) && exists i :: 0 <= i < |items| && c in Records(items[i])) &&
      (forall i, c :: 0 <= i < |items| && c in Records(items[i]) ==> c in CreateAll(items).value) &&
      |CreateAll(items).value| >= |items|
    decreases |items|
  {
    if items != [] {
      var a := items[0];
      CreateAllMeaning(items[1..]);
      assert forall i :: 0 < i < |items| ==> items[i] == items[1..][i - 1];
      if Created(a).Ok? {
        ClassifyWellFormed(a.comment, a.time, a.timeString);
        if CreateAll(items[1..]).Ok? {
          var cs := Created(a).value;
          var rest := CreateAll(items[1..]).value;
          forall c | c in cs + rest
            ensures WellFormed(c) && exists i :: 0 <= i < |items| && c in Records(items[i])
          {
            if c in cs {
              assert c in Records(items[0]);
            } else {
              var i :| 0 <= i < |items[1..]| && c in Records(items[1..][i]);
              assert c in Records(items[i + 1]);
            }
          }
          forall i, c | 0 <= i < |items| && c in Records(items[i])
            ensures c in cs + rest
          {
            if i == 0 {
              assert Records(items[i]) == cs;
              assert c in cs;
            } else {
              assert items[i] == items[1..][i - 1];
              assert c in rest;
            }
          }
        } else {
          var i :| 0 <= i < |items[1..]| && Created(items[1..][i]).Err?;
          assert Created(items[i + 1]).Err?;
        }
      }
    }
  }

  /**
   * The flat map appends the records of each entry after those of the entries before it, and
   * once an entry has thrown, later entries cannot undo it.
   */
  lemma {:induction false} CreateAllSnoc(items: seq<Announced>, a: Announced)
    ensures CreateAll(items).Ok? && Created(a).Ok? ==>
      CreateAll(items + [a]) == Ok(CreateAll(items).value + Created(a).value)
    ensures CreateAll(items).Err? ==> CreateAll(items + [a]) == CreateAll(items)
    ensures Created(a).Err? ==> CreateAll(items + [a]).Err?
    decreases |items|
  {
    var all := items + [a];
    if items == [] {
      assert all == [a] && all[1..] == [];
      if Created(a).Ok? {
        var cs := Created(a).value;
        assert CreateAll(all[1..]) == Ok([]);
        assert CreateAll(all) == Ok(cs + []);
        assert cs + [] == [] + cs == cs;
      }
    } else {
      assert all[0] == items[0] && all[1..] == items[1..] + [a];
      CreateAllSnoc(items[1..], a);
      var head := Created(items[0]);
      if head.Ok? {
        var cs := head.value;
        if CreateAll(items[1..]).Ok? && Created(a).Ok? {
          var rest := CreateAll(items[1..]).value;
          assert CreateAll(all[1..]) == Ok(rest + Created(a).value);
          assert CreateAll(all) == Ok(cs + (rest + Created(a).value));
          assert cs + (rest + Created(a).value) == (cs + rest) + Created(a).value;
        }
      }
    }
  }

  /** The gate at the top of the handler. */
  predicate Accepted(origin: string, msgType: Option<string>, data: Option<seq<Announced>>) {
    origin == TrustedOrigin && msgType == Some(AnnounceType) && data.Some? && data.value != []
  }

  /**
   * The buttons the handler shows for one message: none unless the message comes from the trusted
   * origin with the skip-times type and a non-empty payload, none when some `create` throws (the
   * surrounding `catch` swallows it), and otherwise the reconciled records in order.
   */
  function Handle(origin: string, msgType: Option<string>, data: Option<seq<Announced>>)
    : seq<Candidate>
  {
    if !Accepted(origin, msgType, data) then []
    else
      match CreateAll(data.value)
      case Err(_) => []
      case Ok(cs) => ReconcileAll(cs)
  }

  /** An accepted message with one entry shows that entry's records, reconciled. */
  lemma HandleOneEntry(a: Announced, cs: seq<Candidate>)
    requires Created(a) == Ok(cs)
    ensures Handle(TrustedOrigin, Some(AnnounceType), Some([a])) == ReconcileAll(cs)
  {
    var items := [a];
    assert items[0] == a && items[1..] == [];
    assert CreateAll(items[1..]) == Ok([]);
    assert cs + [] == cs;
    assert CreateAll(items) == Ok(cs);
    assert Accepted(TrustedOrigin, Some(AnnounceType), Some(items));
  }

  /** Every record the constructor builds and the filter hides is one that does not skip others. */
  lemma VisibleNonEmpty(cs: seq<Candidate>)
    requires forall c :: c in cs ==> WellFormed(c)
    requires cs != []
    ensures Visible(cs) != []
  {
    VisibleMeaning(cs);
    if AnySkipOthers(cs) {
      var k :| 0 <= k < |cs| && cs[k].skipOthers;
      assert cs[k] in cs;
      assert cs[k] in Visible(cs);
    }
  }

  /**
   * The buttons are ascending by time, more than TIME_DELTA apart, built by the constructor, and
   * each comes from some entry's `create`.
   */
  lemma HandleOrdered(origin: string, msgType: Option<string>, data: Option<seq<Announced>>)
    ensures var r := Handle(origin, msgType, data);
      SortedByTime(r) && Spread(r) &&
      (forall c :: c in r ==>
        (WellFormed(c) && exists i :: 0 <= i < |data.value| && c in Records(data.value[i])))
  {
    var r := Handle(origin, msgType, data);
    if Accepted(origin, msgType, data) && CreateAll(data.value).Ok? {
      var cs := CreateAll(data.value).value;
      assert r == ReconcileAll(cs);
      CreateAllMeaning(data.value);
      ReconcileMeaning(cs);
      forall c | c in r
        ensures WellFormed(c) && exists i :: 0 <= i < |data.value| && c in Records(data.value[i])
      {
        assert c in cs;
      }
    } else {
      assert r == [];
    }
  }

  /**
   * At least one button is shown exactly when the message passes the gate and no entry's `create`
   * throws; a rejected message, or one where some `create` throws, shows none.
   */
  lemma HandleShowsButtons(origin: string, msgType: Option<string>, data: Option<seq<Announced>>)
    ensures Handle(origin, msgType, data) != [] <==>
      Accepted(origin, msgType, data) &&
      forall i :: 0 <= i < |data.value| ==> Created(data.value[i]).Ok?
  {
    if Accepted(origin, msgType, data) {
      CreateAllMeaning(data.value);
      if CreateAll(data.value).Ok? {
        var cs := CreateAll(data.value).value;
        ReconcileMeaning(cs);
        VisibleNonEmpty(cs);
      }
    }
  }

  /**
   * Once one accepted comment mentions a recap or title keyword, no generic button is shown.
   */
  lemma HandleHidesGeneric(origin: string, msgType: Option<string>, data: Option<seq<Announced>>, i: nat)
    requires data.Some? && i < |data.value|
    requires MatchesRecap(data.value[i].comment) || MatchesTitle(data.value[i].comment)
    ensures forall c :: c in Handle(origin, msgType, data) ==> c.kind != Generic
  {
    var a := data.value[i];
    if Accepted(origin, msgType, data) && CreateAll(data.value).Ok? {
      var cs := CreateAll(data.value).value;
      CreateAllMeaning(data.value);
      assert Created(a).Ok?;
      if MatchesRecap(a.comment) && MatchesTitle(a.comment) {
        ClassifyFails(a.comment, a.time, a.timeString);
        ClassifyBothKinds(a.comment, a.time, a.timeString);
      } else {
        ClassifyOneKind(a.comment, a.time, a.timeString);
      }
      var c0 := Created(a).value[0];
      assert c0 in cs && c0.kind != Generic;
      ReconcileHidesGeneric(cs);
    }
  }
}
