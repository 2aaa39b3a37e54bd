/** The request-key planner: set_key() records the value of one key column
    and raises the access plan; the request parameters and then the
    path-info segments are fed through it. The effect of a sequence of
    set_key() calls is the fold ApplyAll over the bindings they make. */
module QueryPlanner {
  import opened Bytes
  import opened CLib
  import opened Wrappers
  import opened QueryConfig

  const Slash: byte := '/' as int

  /** The fields of QueryItems the planner writes, as one value. */
  datatype Items = Items(
    plan: AccessPlan,
    activeIndex: int,
    keyColumnsUsed: int,
    nFilters: int,
    filterList: seq<int>,
    keys: seq<Option<seq<byte>>>)

  /** One set_key() call: key column col receives value. */
  datatype Binding = Binding(col: int, value: seq<byte>)

  /** One request parameter, split at its '=' and unescaped. */
  datatype Param = Param(key: seq<byte>, value: seq<byte>)

  predicate InRange(dir: Dir, bs: seq<Binding>) {
    forall i :: 0 <= i < |bs| ==> 0 <= bs[i].col < |dir.keyColumns|
  }

  /** The items as set_key(n, value) leaves them. */
  function KeyStep(q: Items, dir: Dir, b: Binding): Items
    requires 0 <= b.col < |dir.keyColumns|
  {
    var kc := dir.keyColumns[b.col];
    var raised := PlanRank(kc.impliedPlan) > PlanRank(q.plan);
    Items(
      if raised then kc.impliedPlan else q.plan,
      if raised then kc.indexId else q.activeIndex,
      q.keyColumnsUsed + 1,
      if kc.isFilter then q.nFilters + 1 else q.nFilters,
      if kc.isFilter then q.filterList + [b.col] else q.filterList,
      if 0 <= b.col < |q.keys| then q.keys[b.col := Some(b.value)] else q.keys)
  }

  /** The items after one set_key() call per binding, in order. */
  function ApplyAll(q: Items, dir: Dir, bs: seq<Binding>): Items
    requires InRange(dir, bs)
  {
    if bs == [] then q else KeyStep(ApplyAll(q, dir, bs[..|bs| - 1]), dir, bs[|bs| - 1])
  }

  /** The rank of the implied plan of the column a binding names. */
  function BindingRank(dir: Dir, b: Binding): nat
    requires 0 <= b.col < |dir.keyColumns|
  {
    PlanRank(dir.keyColumns[b.col].impliedPlan)
  }

  /** The largest of r0 and the ranks the bindings imply. */
  function MaxRank(r0: nat, dir: Dir, bs: seq<Binding>): (m: nat)
    requires InRange(dir, bs)
  {
    if bs == [] then r0 else Max(MaxRank(r0, dir, bs[..|bs| - 1]), BindingRank(dir, bs[|bs| - 1]))
  }

  function Max(a: nat, b: nat): nat { if a < b then b else a }

  /** The columns of the filter bindings, in order. */
  function FilterCols(dir: Dir, bs: seq<Binding>): seq<int>
    requires InRange(dir, bs)
  {
    if bs == [] then []
    else
      var b := bs[|bs| - 1];
      FilterCols(dir, bs[..|bs| - 1]) + (if dir.keyColumns[b.col].isFilter then [b.col] else [])
  }

  /** The value of the last binding to column c, if any. */
  function LastValue(bs: seq<Binding>, c: int): Option<seq<byte>>
  {
    if bs == [] then None
    else if bs[|bs| - 1].col == c then Some(bs[|bs| - 1].value)
    else LastValue(bs[..|bs| - 1], c)
  }

  /** MaxRank is the maximum: no smaller than r0 or any binding's rank, and
      equal to r0 or to some binding's rank. */
  lemma {:induction false} MaxRankIsMaximum(r0: nat, dir: Dir, bs: seq<Binding>)
    requires InRange(dir, bs)
    ensures var m := MaxRank(r0, dir, bs);
      && r0 <= m
      && (forall i :: 0 <= i < |bs| ==> BindingRank(dir, bs[i]) <= m)
      && (m == r0 || exists i :: 0 <= i < |bs| && BindingRank(dir, bs[i]) == m)
  {
    if bs != [] {
      var init := bs[..|bs| - 1];
      MaxRankIsMaximum(r0, dir, init);
      assert forall i :: 0 <= i < |init| ==> init[i] == bs[i];
      var m0 := MaxRank(r0, dir, init);
      if m0 != r0 && m0 >= BindingRank(dir, bs[|bs| - 1]) {
        var i :| 0 <= i < |init| && BindingRank(dir, init[i]) == m0;
        assert bs[i] == init[i];
      }
    }
  }

  /** The plan after the bindings has the maximal rank; the active index is
      that of the first binding reaching it, and both stay as they were when
      no binding is strictly higher than the seed. */
  lemma {:induction false} ApplyAllPlan(q: Items, dir: Dir, bs: seq<Binding>)
    requires InRange(dir, bs)
    ensures var r := ApplyAll(q, dir, bs); var m := MaxRank(PlanRank(q.plan), dir, bs);
      && PlanRank(r.plan) == m
      && (m == PlanRank(q.plan) ==> r.plan == q.plan && r.activeIndex == q.activeIndex)
      && (m > PlanRank(q.plan) ==>
            exists i :: 0 <= i < |bs| && BindingRank(dir, bs[i]) == m
              && r.activeIndex == dir.keyColumns[bs[i].col].indexId
              && forall j :: 0 <= j < i ==> BindingRank(dir, bs[j]) < m)
  {
    if bs != [] {
      var init := bs[..|bs| - 1];
      var b := bs[|bs| - 1];
      ApplyAllPlan(q, dir, init);
      MaxRankIsMaximum(PlanRank(q.plan), dir, init);
      var m0 := MaxRank(PlanRank(q.plan), dir, init);
      assert forall i :: 0 <= i < |init| ==> init[i] == bs[i];
      if BindingRank(dir, b) > m0 {
        assert BindingRank(dir, bs[|init|]) == MaxRank(PlanRank(q.plan), dir, bs);
      } else if m0 > PlanRank(q.plan) {
        var i :| 0 <= i < |init| && BindingRank(dir, init[i]) == m0
          && ApplyAll(q, dir, init).activeIndex == dir.keyColumns[init[i].col].indexId
          && forall j :: 0 <= j < i ==> BindingRank(dir, init[j]) < m0;
        assert bs[i] == init[i];
      }
    }
  }

  lemma PlanRankInjective(p: AccessPlan, p': AccessPlan)
    requires PlanRank(p) == PlanRank(p')
    ensures p == p'
  {
  }

  /** The final plan does not depend on the order in which the columns
      were matched. */
  lemma PlanOrderIndependent(q: Items, dir: Dir, bs: seq<Binding>, bs': seq<Binding>)
    requires InRange(dir, bs) && InRange(dir, bs') && multiset(bs) == multiset(bs')
    ensures ApplyAll(q, dir, bs).plan == ApplyAll(q, dir, bs').plan
  {
    var r0 := PlanRank(q.plan);
    MaxRankIsMaximum(r0, dir, bs);
    MaxRankIsMaximum(r0, dir, bs');
    var m, m' := MaxRank(r0, dir, bs), MaxRank(r0, dir, bs');
    forall i | 0 <= i < |bs| ensures BindingRank(dir, bs[i]) <= m' {
      assert bs[i] in multiset(bs');
      var j :| 0 <= j < |bs'| && bs'[j] == bs[i];
    }
    forall j | 0 <= j < |bs'| ensures BindingRank(dir, bs'[j]) <= m {
      assert bs'[j] in multiset(bs);
      var i :| 0 <= i < |bs| && bs[i] == bs'[j];
    }
    assert m == m';
    ApplyAllPlan(q, dir, bs);
    ApplyAllPlan(q, dir, bs');
    PlanRankInjective(ApplyAll(q, dir, bs).plan, ApplyAll(q, dir, bs').plan);
  }

  /** Each binding counts one key column used and sets that column's value;
      a filter binding appends its column to the filter list, leaving the
      earlier entries in place. */
  lemma {:induction false} ApplyAllRecords(q: Items, dir: Dir, bs: seq<Binding>)
    requires InRange(dir, bs) && |q.keys| == |dir.keyColumns|
    ensures var r := ApplyAll(q, dir, bs);
      && r.keyColumnsUsed == q.keyColumnsUsed + |bs|
      && r.filterList == q.filterList + FilterCols(dir, bs)
      && r.nFilters == q.nFilters + |FilterCols(dir, bs)|
      && |r.keys| == |q.keys|
      && forall c :: 0 <= c < |q.keys| ==>
           r.keys[c] == if LastValue(bs, c).Some? then LastValue(bs, c) else q.keys[c]
  {
    if bs != [] {
      ApplyAllRecords(q, dir, bs[..|bs| - 1]);
    }
  }

  /** The items the planner starts from: the all-NULL key array of k columns. */
  function Initial(k: nat): (q: Items)
    ensures |q.keys| == k && forall c :: 0 <= c < k ==> q.keys[c] == None
  {
    Items(NoPlan, -1, 0, 0, [], seq(k, _ => None))
  }

  /** What Query() relies on later: every filter-list entry names a key
      column whose value is set, and every set value is a C string. */
  ghost predicate Consistent(q: Items, dir: Dir) {
    && |q.keys| == |dir.keyColumns|
    && q.nFilters == |q.filterList|
    && (forall i :: 0 <= i < |q.filterList| ==>
          0 <= q.filterList[i] < |q.keys| && q.keys[q.filterList[i]].Some?)
    && (forall c :: 0 <= c < |q.keys| && q.keys[c].Some? ==> NoNul(q.keys[c].value))
  }

  predicate CStrings(bs: seq<Binding>) {
    forall i :: 0 <= i < |bs| ==> NoNul(bs[i].value)
  }

  lemma {:induction false} ApplyAllConsistent(q: Items, dir: Dir, bs: seq<Binding>)
    requires InRange(dir, bs) && CStrings(bs) && Consistent(q, dir)
    ensures Consistent(ApplyAll(q, dir, bs), dir)
  {
    if bs != [] {
      var init := bs[..|bs| - 1];
      assert forall i :: 0 <= i < |init| ==> init[i] == bs[i];
      ApplyAllConsistent(q, dir, init);
    }
  }

  /** The bindings the parameter loop makes: one for each parameter whose
      name is a key column, in the order of the query string. */
  function ArgBindings(cols: seq<KeyCol>, args: seq<Param>): (bs: seq<Binding>)
    ensures forall i :: 0 <= i < |bs| ==> 0 <= bs[i].col < |cols|
  {
    if args == [] then []
    else
      var a := args[|args| - 1];
      var n := NameIndex(cols, a.key);
      ArgBindings(cols, args[..|args| - 1]) + (if n >= 0 then [Binding(n, a.value)] else [])
  }

  /** The bytes of w before its first '/'. */
  function Head(w: seq<byte>): (h: seq<byte>)
    ensures h <= w && Slash !in h && (|h| < |w| ==> w[|h|] == Slash)
  {
    if w == [] || w[0] == Slash then [] else [w[0]] + Head(w[1..])
  }

  /** The segments of w that follow a '/', the rightmost first. */
  function Segments(w: seq<byte>): seq<seq<byte>>
  {
    if w == [] then []
    else if w[0] == Slash then Segments(w[1..]) + [Head(w[1..])]
    else Segments(w[1..])
  }

  /** No segment holds a '/'. */
  lemma {:induction false} SegmentsHaveNoSlash(w: seq<byte>)
    ensures forall i :: 0 <= i < |Segments(w)| ==> Slash !in Segments(w)[i]
  {
    if w != [] {
      SegmentsHaveNoSlash(w[1..]);
    }
  }

  /** The segments joined back, each after a '/', the last one first. */
  function JoinRightToLeft(segs: seq<seq<byte>>): seq<byte>
  {
    if segs == [] then [] else JoinRightToLeft(segs[1..]) + [Slash] + segs[0]
  }

  lemma {:induction false} JoinRightToLeftSnoc(segs: seq<seq<byte>>, h: seq<byte>)
    ensures JoinRightToLeft(segs + [h]) == [Slash] + h + JoinRightToLeft(segs)
  {
    if segs == [] {
      assert ([] + [h])[1..] == [];
    } else {
      assert (segs + [h])[1..] == segs[1..] + [h];
      JoinRightToLeftSnoc(segs[1..], h);
    }
  }

  /** Segmentation loses nothing: the bytes before the first '/' followed by
      the rejoined segments give back w. */
  lemma {:induction false} SegmentsRoundTrip(w: seq<byte>)
    ensures w == Head(w) + JoinRightToLeft(Segments(w))
  {
    if w != [] {
      SegmentsRoundTrip(w[1..]);
      if w[0] == Slash {
        JoinRightToLeftSnoc(Segments(w[1..]), Head(w[1..]));
        assert w == [Slash] + w[1..];
      } else {
        assert w == [w[0]] + w[1..];
      }
    }
  }

  /** Prepending bytes only adds segments on the left: those of a suffix
      come first. */
  lemma {:induction false} SegmentsOfSuffix(w: seq<byte>, k: nat)
    requires k <= |w|
    ensures Segments(w[k..]) <= Segments(w)
  {
    if k > 0 {
      SegmentsOfSuffix(w[1..], k - 1);
      assert w[1..][k - 1..] == w[k..];
    }
  }

  /** path_info without one trailing '/'. */
  function Trimmed(path: seq<byte>): seq<byte>
  {
    if |path| > 0 && path[|path| - 1] == Slash then path[..|path| - 1] else path
  }

  /** The k-th segment from the right (k counted from 0) bound to the
      path-info column pathinfo[P-1-k]. */
  function Pair(segs: seq<seq<byte>>, pathinfo: seq<int>): (bs: seq<Binding>)
    requires |segs| <= |pathinfo|
    ensures |bs| == |segs|
    ensures forall i :: 0 <= i < |segs| ==> bs[i] == Binding(pathinfo[|pathinfo| - 1 - i], segs[i])
  {
    if segs == [] then []
    else Pair(segs[..|segs| - 1], pathinfo) + [Binding(pathinfo[|pathinfo| - |segs|], segs[|segs| - 1])]
  }

  /** The bindings of the path-info scan: at most one per configured
      path-info column, the rightmost segment to the last column. */
  function PathBindings(path: seq<byte>, pathinfo: seq<int>): (bs: seq<Binding>)
    ensures |bs| <= |pathinfo|
  {
    var segs := Segments(Trimmed(path));
    Pair(segs[..Min(|pathinfo|, |segs|)], pathinfo)
  }

  /** ap_pstrndup(s + 1, n) within a C string: at most n bytes from s + 1,
      stopping at its end. */
  function Strndup(p: seq<byte>, start: nat, n: nat): seq<byte>
    requires start <= |p|
  {
    p[start..Min(start + n, |p|)]
  }

  /** One more byte on the left of the scanned region. */
  lemma ConsSegments(c: byte, r: seq<byte>)
    ensures Segments([c] + r) == if c == Slash then Segments(r) + [Head(r)] else Segments(r)
    ensures Head([c] + r) == if c == Slash then [] else [c] + Head(r)
    ensures (Slash in [c] + r) <==> c == Slash || Slash in r
  {
    assert ([c] + r)[1..] == r;
  }

  /** The copy of a segment: the counted length is the segment's, or one
      more (the NUL) for the rightmost segment of a path without a trailing
      '/', which the copy then stops short of. */
  lemma StrndupSegment(path: seq<byte>, w: seq<byte>, s: int, itemLen: int, extra: int)
    requires w <= path && 0 <= s < |w| && (extra == 1 ==> w == path)
    requires itemLen == |Head(w[s + 1..])| + (if extra == 1 && Slash !in w[s + 1..] then 1 else 0)
    ensures Strndup(path, s + 1, itemLen) == Head(w[s + 1..])
  {
    var h := Head(w[s + 1..]);
    if extra == 1 && Slash !in w[s + 1..] {
      assert |h| == |w| - s - 1;
    } else {
      assert path[s + 1..s + 1 + |h|] == w[s + 1..][..|h|];
    }
  }

  lemma PairSnoc(segs: seq<seq<byte>>, h: seq<byte>, p: seq<int>)
    requires |segs| < |p|
    ensures Pair(segs + [h], p) == Pair(segs, p) + [Binding(p[|p| - 1 - |segs|], h)]
  {
    assert (segs + [h])[..|segs|] == segs;
  }

  lemma ApplyAllSnoc(q: Items, dir: Dir, bs: seq<Binding>, b: Binding)
    requires InRange(dir, bs) && 0 <= b.col < |dir.keyColumns|
    ensures InRange(dir, bs + [b])
    ensures ApplyAll(q, dir, bs + [b]) == KeyStep(ApplyAll(q, dir, bs), dir, b)
  {
    assert (bs + [b])[..|bs|] == bs;
  }

  /** The loop invariant of the path-info scan. The scan has passed the
      bytes seen of the trimmed path; it has bound their segments; itemLen
      is the length of the segment in progress (plus the NUL when the path
      has no trailing '/' and no '/' has been met yet). */
  ghost predicate ScanState(path: seq<byte>, p: seq<int>, s: int, extra: int, seen: seq<byte>,
                            itemLen: int, element: int, bs: seq<Binding>)
  {
    var w := Trimmed(path);
    && -1 <= s <= |w| && w <= path
    && (extra == 1 ==> w == path)
    && seen == (if s < |w| then w[s + 1..] else [])
    && (s == |w| ==> extra == 1 && s == |path| && itemLen == 0)
    && (s < |w| ==> itemLen == |Head(seen)| + (if extra == 1 && Slash !in seen then 1 else 0))
    && |Segments(seen)| <= |p| && element == |p| - 1 - |Segments(seen)|
    && bs == Pair(Segments(seen), p)
  }

  /** One iteration of the scan keeps its invariant. */
  lemma ScanStep(path: seq<byte>, p: seq<int>, s: int, extra: int, seen: seq<byte>,
                 itemLen: int, element: int, bs: seq<Binding>)
    requires ScanState(path, p, s, extra, seen, itemLen, element, bs) && s >= 0 && element >= 0
    ensures var c: byte := if s < |path| then path[s] else 0;
      var seen' := if s < |Trimmed(path)| then Trimmed(path)[s..] else [];
      if c == Slash then
        0 <= s < |path| &&
        ScanState(path, p, s - 1, extra, seen', 0, element - 1,
                  bs + [Binding(p[element], Strndup(path, s + 1, itemLen))])
      else ScanState(path, p, s - 1, extra, seen', itemLen + 1, element, bs)
  {
    var w := Trimmed(path);
    var c: byte := if s < |path| then path[s] else 0;
    if s < |w| {
      assert w[s..] == [c] + seen;
      ConsSegments(c, seen);
    }
    if c == Slash {
      StrndupSegment(path, w, s, itemLen, extra);
      PairSnoc(Segments(seen), Strndup(path, s + 1, itemLen), p);
    }
  }

  /** Where the scan stops: at the start of the path, or when every
      path-info column has received a segment. */
  lemma ScanDone(path: seq<byte>, p: seq<int>, s: int, extra: int, seen: seq<byte>,
                 itemLen: int, element: int, bs: seq<Binding>)
    requires ScanState(path, p, s, extra, seen, itemLen, element, bs) && (s < 0 || element < 0)
    ensures bs == PathBindings(path, p)
  {
    var w := Trimmed(path);
    if s == |w| {
      assert |p| == 0;
    } else {
      SegmentsOfSuffix(w, s + 1);
      if s < 0 {
        assert w[s + 1..] == w;
      }
    }
  }

  class QueryItems {
    var plan: AccessPlan
    var activeIndex: int
    var keyColumnsUsed: int
    var nFilters: int
    var filterList: seq<int>
    /** q->keys: the runtime value of each key column (NULL when unset). */
    const keys: array<Option<seq<byte>>>

    function Snapshot(): Items
      reads this, keys
    {
      Items(plan, activeIndex, keyColumnsUsed, nFilters, filterList, keys[..])
    }

    /** The QueryItems initialiser of Query(), with the zeroed key array. */
    constructor (k: nat)
      ensures Snapshot() == Initial(k) && fresh(keys)
    {
      plan, activeIndex, keyColumnsUsed, nFilters, filterList := NoPlan, -1, 0, 0, [];
      keys := new Option<seq<byte>>[k](_ => None);
      new;
      assert keys[..] == Initial(k).keys;
    }

    /** set_key(): record value for key column n, push n on the filter list
        when that column is a filter, and raise the plan when the column
        implies a strictly higher one. */
    method SetKey(n: int, value: seq<byte>, dir: Dir)
      requires 0 <= n < |dir.keyColumns| == keys.Length
      modifies this, keys
      ensures Snapshot() == KeyStep(old(Snapshot()), dir, Binding(n, value))
      ensures var kc := dir.keyColumns[n];
        && (PlanRank(kc.impliedPlan) > PlanRank(old(plan)) ==> plan == kc.impliedPlan && activeIndex == kc.indexId)
        && (PlanRank(kc.impliedPlan) <= PlanRank(old(plan)) ==> plan == old(plan) && activeIndex == old(activeIndex))
        && filterList == old(filterList) + (if kc.isFilter then [n] else [])
        && keyColumnsUsed == old(keyColumnsUsed) + 1
        && keys[n] == Some(value)
        && forall c :: 0 <= c < keys.Length && c != n ==> keys[c] == old(keys[c])
    {
      var kc := dir.keyColumns[n];
      if kc.isFilter {
        filterList := filterList + [n];
        nFilters := nFilters + 1;
      }
      keys[n] := Some(value);
      keyColumnsUsed := keyColumnsUsed + 1;
      if PlanRank(kc.impliedPlan) > PlanRank(plan) {
        plan := kc.impliedPlan;
        activeIndex := kc.indexId;
      }
    }

    /** The parameter loop of Query(): look each parameter name up among
        the key columns and record the value of each one found. */
    method ProcessArgs(args: seq<Param>, dir: Dir)
      requires ValidDir(dir) && keys.Length == |dir.keyColumns|
      modifies this, keys
      ensures Snapshot() == ApplyAll(old(Snapshot()), dir, ArgBindings(dir.keyColumns, args))
    {
      ghost var q0 := Snapshot();
      var i := 0;
      while i < |args|
        invariant 0 <= i <= |args|
        invariant Snapshot() == ApplyAll(q0, dir, ArgBindings(dir.keyColumns, args[..i]))
      {
        ghost var prev := ArgBindings(dir.keyColumns, args[..i]);
        assert args[..i + 1][..i] == args[..i];
        var n := KeyColBinSearch(args[i].key, dir.keyColumns);
        if n >= 0 {
          ghost var b := Binding(n, args[i].value);
          ghost var before := Snapshot();
          SetKey(n, args[i].value, dir);
          assert ArgBindings(dir.keyColumns, args[..i + 1]) == prev + [b];
          assert (prev + [b])[..|prev|] == prev;
          assert Snapshot() == KeyStep(before, dir, b);
          assert ApplyAll(q0, dir, prev + [b]) == KeyStep(ApplyAll(q0, dir, prev), dir, b);
        } else {
          assert ArgBindings(dir.keyColumns, args[..i + 1]) == prev + [];
          assert prev + [] == prev;
        }
        i := i + 1;
      }
      assert args[..i] == args;
    }

    /** The path-info scan of Query(): walk path_info from its end (or from
        before a trailing '/') towards its start, and at each '/' record
        the segment after it for the next path-info column, the last
        column first, until the columns or the bytes run out. Without a
        trailing '/' the scan starts on the terminating NUL, so the first
        segment's length counts one byte too many, which the copy drops. */
    method ScanPathInfo(path: seq<byte>, dir: Dir)
      requires ValidDir(dir) && keys.Length == |dir.keyColumns|
      modifies this, keys
      ensures Snapshot() == ApplyAll(old(Snapshot()), dir, PathBindings(path, dir.pathinfo))
    {
      ghost var q0 := Snapshot();
      ghost var w := Trimmed(path);
      var p := dir.pathinfo;
      var element := |p| - 1;
      var itemLen := 0;
      var s := |path|;
      if |path| > 0 && path[|path| - 1] == Slash {
        s := |path| - 2;
      }
      ghost var extra := if s == |path| then 1 else 0;
      ghost var seen: seq<byte> := [];
      ghost var bs: seq<Binding> := [];
      while s >= 0 && element >= 0
        invariant ScanState(path, p, s, extra, seen, itemLen, element, bs)
        invariant InRange(dir, bs)
        invariant Snapshot() == ApplyAll(q0, dir, bs)
        decreases s
      {
        ScanStep(path, p, s, extra, seen, itemLen, element, bs);
        var c: byte := if s < |path| then path[s] else 0;
        seen := if s < |Trimmed(path)| then Trimmed(path)[s..] else [];
        if c == Slash {
          var value := Strndup(path, s + 1, itemLen);
          ghost var b := Binding(p[element], value);
          ApplyAllSnoc(q0, dir, bs, b);
          SetKey(p[element], value, dir);
          bs := bs + [b];
          element := element - 1;
          itemLen := 0;
        } else {
          itemLen := itemLen + 1;
        }
        s := s - 1;
      }
      ScanDone(path, p, s, extra, seen, itemLen, element, bs);
    }
  }
}
