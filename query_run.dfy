/** Query(): the HTTP method chooses the setup and action steps, the
    planner binds the request keys, and the chosen plan drives the index
    object, the key parts, the scan filters and the write setup. The NDB
    API is represented by an Engine value holding the answer of each call;
    the ndb_instance fields Query() updates are the NdbInstance class. */
module QueryRun {
  import opened Bytes
  import opened CLib
  import opened Wrappers
  import opened Ndb
  import opened QueryConfig
  import opened QueryPlanner
  import opened CodecCommon
  import V = MySQLValue

  /** The HTTP methods Query() tells apart. */
  datatype HttpMethod = MGet | MPost | MDelete | MOtherMethod

  /** The setup and action modules Query() can select. */
  datatype SetupStep = SetupRead | SetupWrite | SetupInsert | SetupDelete
  datatype ActionStep = ReadAction | WriteAction | DeleteAction

  /** The operation a setup module asks of the NDB operation object. */
  datatype SetupCall =
    | TableScanRead                                // scanop->readTuples()
    | IndexScanRead(sorted: bool, descending: bool) // scanop->readTuples(LM_CommittedRead, ...)
    | TupleRead                                    // op->readTuple()
    | InsertTuple | InterpretedUpdateTuple | WriteTuple
    | DeleteTuple

  datatype IndexType = UniqueHashIndex | OrderedIndex | OtherIndexType

  /** The index object Query() creates for the plan. */
  datatype IndexObject = TableScanObject | OrderedIndexObject | PKIndexObject | UniqueIndexObject

  /** The request as Query() reads it. */
  datatype Request = Request(
    sourceMethod: HttpMethod,                    // qsource.req_method
    methodNumber: HttpMethod,                    // r->method_number
    args: Option<seq<Param>>,                    // r->args, split and unescaped; None when absent
    pathInfo: seq<byte>,                         // r->path_info
    keepTxOpen: bool,                            // qsource.keep_tx_open
    formItem: seq<byte> -> Option<LenString>)    // qsource.get_item(name)

  /** The answers of the NDB API calls Query() makes. */
  datatype Engine = Engine(
    tableFound: bool,                            // dict->getTable() != 0
    tableColumn: seq<byte> -> Option<Column>,    // tab->getColumn(name)
    indexType: seq<byte> -> Option<IndexType>,   // dict->getIndex(name)->getType()
    formDataCode: int,                           // qsource.get_form_data()
    startTransactionOk: bool,                    // db->startTransaction() != 0
    keyColumn: KeyCol -> Column,                 // idxobj->get_column(keycol)
    constantColumn: Constant -> Column,          // idxobj->get_column(constant)
    keyPartCount: nat,                           // parts before next_key_part() says no
    setKeyPartFails: (RelOp, MValue) -> bool,    // idxobj->set_key_part() != 0
    setupCode: SetupCall -> int,                 // what the chosen setup call returns
    writeActionCode: int,                        // Plan::Write()
    executeAllCode: int)                         // ExecuteAll()

  const OK: int := 0

  // ---------------------------------------------------------------------
  // mval_is_usable

  /** mval_is_usable(): a discriminant past mvalue_is_good. */
  predicate MvalIsUsable(m: MValue) {
    UseRank(m.use) > GoodRank
  }

  /** The usable values are exactly those that are not one of the three
      error kinds. */
  lemma MvalIsUsableIff(m: MValue)
    ensures MvalIsUsable(m) <==> !m.use.IsError()
  {
  }

  // ---------------------------------------------------------------------
  // The method switch and the seed of the plan

  /** What the method switch decides: an early response, or the setup and
      action steps and the plan it forces. */
  datatype MethodChoice = Stop(code: int) | Go(setup: SetupStep, action: ActionStep, plan: AccessPlan)

  function MethodStage(req: Request, dir: Dir, eng: Engine, nReadOps: nat, maxReadOps: nat): (c: MethodChoice)
    ensures c == Stop(405) <== req.sourceMethod == MOtherMethod || (req.sourceMethod == MDelete && !dir.allowDelete)
    ensures c.Go? && c.plan == PrimaryKey <==>
      req.sourceMethod == MPost && eng.formDataCode == OK && req.args.None? && |dir.pathinfo| == 0
    ensures c.Go? && c.plan == PrimaryKey ==> c.setup == SetupInsert
  {
    match req.sourceMethod
    case MGet => if nReadOps < maxReadOps then Go(SetupRead, ReadAction, NoPlan) else Stop(500)
    case MPost =>
      if eng.formDataCode != OK then Stop(eng.formDataCode)
      else if req.args.None? && |dir.pathinfo| == 0 then Go(SetupInsert, WriteAction, PrimaryKey)
      else Go(SetupWrite, WriteAction, NoPlan)
    case MDelete => if !dir.allowDelete then Stop(405) else Go(SetupDelete, DeleteAction, NoPlan)
    case MOtherMethod => Stop(405)
  }

  /** The items before any key is bound: the table-scan flag forces Scan; a
      default key becomes the active index, and its first constant, if
      any, sets the plan. */
  function Seeded(plan: AccessPlan, dir: Dir): (q: Items)
    requires ValidDir(dir)
    ensures Consistent(q, dir) && -1 <= q.activeIndex < |dir.indexes|
    ensures q.keys == Initial(|dir.keyColumns|).keys && q.filterList == [] && q.keyColumnsUsed == 0
    ensures dir.defaultKey >= 0 ==> q.activeIndex == dir.defaultKey
    ensures dir.defaultKey < 0 ==> q.activeIndex == -1 && q.plan == if dir.tableScan then Scan else plan
    ensures dir.defaultKey >= 0 ==>
      var cs := dir.indexes[dir.defaultKey].constants;
      q.plan == if |cs| > 0 then cs[0].impliedPlan else if dir.tableScan then Scan else plan
  {
    var q0 := Initial(|dir.keyColumns|).(plan := plan);
    var q1 := if dir.tableScan then q0.(plan := Scan) else q0;
    if dir.defaultKey >= 0 then
      var cs := dir.indexes[dir.defaultKey].constants;
      q1.(activeIndex := dir.defaultKey, plan := if |cs| > 0 then cs[0].impliedPlan else q1.plan)
    else q1
  }

  /** The request parameters, then (when no plan has been found yet, or
      always when so configured) the path-info segments. */
  function Planned(req: Request, dir: Dir, seed: Items): Items
    requires ValidDir(dir)
  {
    var q1 := if req.args.Some? then ApplyAll(seed, dir, ArgBindings(dir.keyColumns, req.args.value)) else seed;
    if |dir.pathinfo| > 0 && (q1.plan == NoPlan || dir.pathinfoAlways) then
      ApplyAll(q1, dir, PathBindings(req.pathInfo, dir.pathinfo))
    else q1
  }

  /** What Query() needs of its inputs: a configured directory, C strings
      from the request, and form items whose length is within their bytes. */
  ghost predicate RequestReady(req: Request, dir: Dir) {
    && ValidDir(dir)
    && NoNul(req.pathInfo)
    && (req.args.Some? ==> forall i :: 0 <= i < |req.args.value| ==> NoNul(req.args.value[i].value))
    && (forall k :: req.formItem(k).Some? ==> req.formItem(k).value.len <= |req.formItem(k).value.str|)
  }

  lemma {:induction false} ArgBindingsCStrings(cols: seq<KeyCol>, args: seq<Param>)
    requires forall i :: 0 <= i < |args| ==> NoNul(args[i].value)
    ensures CStrings(ArgBindings(cols, args))
  {
    if args != [] {
      ArgBindingsCStrings(cols, args[..|args| - 1]);
    }
  }

  lemma {:induction false} SegmentsCStrings(w: seq<byte>)
    requires NoNul(w)
    ensures forall i :: 0 <= i < |Segments(w)| ==> NoNul(Segments(w)[i])
  {
    if w != [] {
      SegmentsCStrings(w[1..]);
    }
  }

  lemma PathBindingsCStrings(path: seq<byte>, pathinfo: seq<int>)
    requires NoNul(path)
    ensures CStrings(PathBindings(path, pathinfo))
  {
    SegmentsCStrings(Trimmed(path));
  }

  /** Every active index the planner can pick is a configured index. */
  lemma {:induction false} ApplyAllIndexInRange(q: Items, dir: Dir, bs: seq<Binding>)
    requires ValidDir(dir) && InRange(dir, bs) && -1 <= q.activeIndex < |dir.indexes|
    ensures -1 <= ApplyAll(q, dir, bs).activeIndex < |dir.indexes|
  {
    ApplyAllPlan(q, dir, bs);
    MaxRankIsMaximum(PlanRank(q.plan), dir, bs);
    var r := ApplyAll(q, dir, bs);
    if MaxRank(PlanRank(q.plan), dir, bs) > PlanRank(q.plan) {
      var i :| 0 <= i < |bs| && r.activeIndex == dir.keyColumns[bs[i].col].indexId;
      assert 0 <= bs[i].col < |dir.keyColumns|;
    }
  }

  /** The planned items satisfy what the later stages rely on. */
  lemma PlannedConsistent(req: Request, dir: Dir, seed: Items)
    requires RequestReady(req, dir) && Consistent(seed, dir) && -1 <= seed.activeIndex < |dir.indexes|
    ensures Consistent(Planned(req, dir, seed), dir)
    ensures -1 <= Planned(req, dir, seed).activeIndex < |dir.indexes|
  {
    var q1 := seed;
    if req.args.Some? {
      var bs := ArgBindings(dir.keyColumns, req.args.value);
      ArgBindingsCStrings(dir.keyColumns, req.args.value);
      ApplyAllConsistent(seed, dir, bs);
      ApplyAllIndexInRange(seed, dir, bs);
      q1 := ApplyAll(seed, dir, bs);
    }
    var bs := PathBindings(req.pathInfo, dir.pathinfo);
    PathBindingsCStrings(req.pathInfo, dir.pathinfo);
    ApplyAllConsistent(q1, dir, bs);
    ApplyAllIndexInRange(q1, dir, bs);
  }

  /** Path-info segments are bound only when the parameters left the plan
      at NoPlan or the directory binds them always. */
  lemma PathInfoOnlyWithoutPlan(req: Request, dir: Dir, seed: Items)
    requires ValidDir(dir)
    ensures var q1 := if req.args.Some? then ApplyAll(seed, dir, ArgBindings(dir.keyColumns, req.args.value)) else seed;
      q1.plan != NoPlan && !dir.pathinfoAlways ==> Planned(req, dir, seed) == q1
  {
  }

  // ---------------------------------------------------------------------
  // The index object

  datatype IndexChoice = Chosen(obj: IndexObject) | IndexAbort | NoIndexObject

  /** The index object of the plan: a scan uses an ordered index when the
      directory names one, a primary-key plan needs no index, and any other
      plan needs an active index of the matching type. A NoPlan request
      that still has an active index gets no index object at all. */
  function SelectIndex(q: Items, dir: Dir, eng: Engine): (c: IndexChoice)
    requires ValidDir(dir) && -1 <= q.activeIndex < |dir.indexes|
    ensures c == NoIndexObject ==> q.plan == NoPlan && q.activeIndex >= 0
    ensures q.plan != Scan && q.plan != PrimaryKey && q.activeIndex < 0 ==> c == IndexAbort
    ensures c.Chosen? && q.plan == OrderedIndexScan ==> q.activeIndex >= 0 && c.obj == OrderedIndexObject
    ensures c.Chosen? && c.obj == PKIndexObject <==> q.plan == PrimaryKey
    ensures c.Chosen? && c.obj == UniqueIndexObject ==>
      q.plan == UniqueIndexAccess && eng.indexType(dir.indexes[q.activeIndex].name.value) == Some(UniqueHashIndex)
  {
    if q.plan == Scan then
      match dir.indexScan.name
      case None => Chosen(TableScanObject)
      case Some(name) =>
        if eng.indexType(name).None? then IndexAbort
        else if eng.indexType(name) != Some(OrderedIndex) then IndexAbort
        else Chosen(OrderedIndexObject)
    else if q.plan == PrimaryKey then Chosen(PKIndexObject)
    else if q.activeIndex < 0 then IndexAbort
    else
      var t := eng.indexType(dir.indexes[q.activeIndex].name.value);
      if t.None? then IndexAbort
      else
        match q.plan
        case UniqueIndexAccess => if t == Some(UniqueHashIndex) then Chosen(UniqueIndexObject) else IndexAbort
        case OrderedIndexScan => if t == Some(OrderedIndex) then Chosen(OrderedIndexObject) else IndexAbort
        case NoPlan => NoIndexObject
  }

  /** Plan::SetupRead(): the read call the plan selects. */
  function ReadSetup(q: Items, dir: Dir): (c: SetupCall)
    requires ValidDir(dir) && -1 <= q.activeIndex < |dir.indexes|
    requires q.plan == OrderedIndexScan ==> q.activeIndex >= 0
    ensures c.TableScanRead? <==> q.plan == Scan && dir.indexScan.name.None?
    ensures c.TupleRead? <==> q.plan !in {Scan, OrderedIndexScan}
    ensures c.IndexScanRead? ==> (c.descending ==> c.sorted)
  {
    match q.plan
    case Scan =>
      if dir.indexScan.name.None? then TableScanRead
      else IndexScanRead(dir.indexScan.sorted, dir.indexScan.sorted && dir.indexScan.descending)
    case OrderedIndexScan =>
      var ix := dir.indexes[q.activeIndex];
      IndexScanRead(ix.sorted, ix.sorted && ix.descending)
    case _ => TupleRead
  }

  // ---------------------------------------------------------------------
  // The key parts

  /** The key columns the key-part loop visits: from col along next_in_key,
      at most budget of them (key_columns_used), stopping after the part
      for which next_key_part() says no more. The index object is not part
      of this model; next_key_part() is taken to answer yes while fewer
      than parts key parts have been set. */
  function KeyWalk(dir: Dir, col: int, budget: int, done: nat, parts: nat): (w: seq<int>)
    requires ValidDir(dir) && col < |dir.keyColumns|
    ensures forall i :: 0 <= i < |w| ==> 0 <= w[i] < |dir.keyColumns|
    decreases if budget > 0 then budget else 0
  {
    if col < 0 || budget <= 0 then []
    else [col] + (if done + 1 < parts then KeyWalk(dir, dir.keyColumns[col].nextInKey, budget - 1, done + 1, parts) else [])
  }

  /** The walk follows the key chain from its first column, binds no more
      parts than keys were used, and no more than the index has (but at
      least the first, next_key_part() being asked only after it). */
  lemma {:induction false} KeyWalkShape(dir: Dir, col: int, budget: int, done: nat, parts: nat)
    requires ValidDir(dir) && col < |dir.keyColumns|
    ensures var w := KeyWalk(dir, col, budget, done, parts);
      && |w| <= (if budget > 0 then budget else 0)
      && |w| <= (if parts > done + 1 then parts - done else 1)
      && (col >= 0 && budget > 0 <==> |w| > 0)
      && (|w| > 0 ==> w[0] == col)
      && forall i :: 0 <= i < |w| - 1 ==> w[i + 1] == dir.keyColumns[w[i]].nextInKey
    decreases if budget > 0 then budget else 0
  {
    if col >= 0 && budget > 0 && done + 1 < parts {
      KeyWalkShape(dir, dir.keyColumns[col].nextInKey, budget - 1, done + 1, parts);
    }
  }

  /** A value to bind as a key part. */
  datatype KeyPart = KeyPart(relOp: RelOp, column: Column, value: Option<seq<byte>>)

  predicate PartsReady(parts: seq<KeyPart>) {
    forall i :: 0 <= i < |parts| ==> parts[i].value.Some? ==> NoNul(parts[i].value.value)
  }

  /** The outcome of a run of set_key_part() calls and the mvalue left. */
  datatype Bound = Bound(ok: bool, mval: MValue)

  /** Encode each part's value into the mvalue and bind it; the first
      unusable value or refused bind stops the run. */
  function BindParts(eng: Engine, parts: seq<KeyPart>, m: MValue): (b: Bound)
    requires PartsReady(parts)
  {
    if parts == [] then Bound(true, m)
    else
      var m' := V.ValueSpec(m, Some(parts[0].column), parts[0].value);
      if !MvalIsUsable(m') || eng.setKeyPartFails(parts[0].relOp, m') then Bound(false, m')
      else BindParts(eng, parts[1..], m')
  }

  /** A run that succeeds has bound every part with a usable value, and a
      run with an unusable value fails. */
  lemma {:induction false} BindPartsUsable(eng: Engine, parts: seq<KeyPart>, m: MValue)
    requires PartsReady(parts)
    ensures BindParts(eng, parts, m).ok ==>
      forall i :: 0 <= i < |parts| ==> MvalIsUsable(Encoded(parts, m, i))
    ensures (exists i :: 0 <= i < |parts| && !MvalIsUsable(Encoded(parts, m, i))) ==>
      !BindParts(eng, parts, m).ok
  {
    if parts != [] {
      var m' := V.ValueSpec(m, Some(parts[0].column), parts[0].value);
      if MvalIsUsable(m') && !eng.setKeyPartFails(parts[0].relOp, m') {
        BindPartsUsable(eng, parts[1..], m');
        forall i | 1 <= i < |parts|
          ensures Encoded(parts, m, i) == Encoded(parts[1..], m', i - 1)
        {
          EncodedShift(parts, m, i);
        }
      }
    }
  }

  /** The mvalue the i-th part is bound with, when the earlier parts were
      encoded into the same mvalue before it. */
  function Encoded(parts: seq<KeyPart>, m: MValue, i: nat): MValue
    requires PartsReady(parts) && i < |parts|
    decreases i
  {
    var before := if i == 0 then m else Encoded(parts, m, i - 1);
    V.ValueSpec(before, Some(parts[i].column), parts[i].value)
  }

  lemma {:induction false} EncodedShift(parts: seq<KeyPart>, m: MValue, i: nat)
    requires PartsReady(parts) && 1 <= i < |parts|
    ensures Encoded(parts, m, i) == Encoded(parts[1..], V.ValueSpec(m, Some(parts[0].column), parts[0].value), i - 1)
    decreases i
  {
    if i > 1 {
      EncodedShift(parts, m, i - 1);
    }
  }

  /** The key parts of the walk: each visited key column, its index column
      and the value the request gave it. */
  function KeyParts(dir: Dir, eng: Engine, keys: seq<Option<seq<byte>>>, walk: seq<int>): (parts: seq<KeyPart>)
    requires forall i :: 0 <= i < |walk| ==> 0 <= walk[i] < |dir.keyColumns| && walk[i] < |keys|
    ensures |parts| == |walk|
    ensures forall i :: 0 <= i < |walk| ==> parts[i].value == keys[walk[i]]
  {
    if walk == [] then []
    else
      var kc := dir.keyColumns[walk[0]];
      [KeyPart(kc.relOp, eng.keyColumn(kc), keys[walk[0]])] + KeyParts(dir, eng, keys, walk[1..])
  }

  function ConstantParts(eng: Engine, cs: seq<Constant>): (parts: seq<KeyPart>)
    ensures |parts| == |cs|
    ensures forall i :: 0 <= i < |cs| ==> parts[i] == KeyPart(cs[i].relOp, eng.constantColumn(cs[i]), Some(cs[i].value))
  {
    if cs == [] then [] else [KeyPart(cs[0].relOp, eng.constantColumn(cs[0]), Some(cs[0].value))] + ConstantParts(eng, cs[1..])
  }

  /** The key parts of the active index, then its constants; a scan or a
      plan without an active index binds none. */
  function KeyStage(q: Items, dir: Dir, eng: Engine): Bound
    requires ValidDir(dir) && Consistent(q, dir) && -1 <= q.activeIndex < |dir.indexes|
  {
    if q.plan == Scan || q.activeIndex < 0 then Bound(true, Blank)
    else
      var ix := dir.indexes[q.activeIndex];
      var walk := KeyWalk(dir, ix.firstCol, q.keyColumnsUsed, 0, eng.keyPartCount);
      var b := BindParts(eng, KeyParts(dir, eng, q.keys, walk), Blank);
      if !b.ok then b else BindParts(eng, ConstantParts(eng, ix.constants), b.mval)
  }

  /** One step of the key-part run: the first column of the walk is
      encoded and bound, and the rest of the walk follows its next_in_key. */
  lemma KeyWalkStep(dir: Dir, eng: Engine, keys: seq<Option<seq<byte>>>, col: int, used: int, done: nat, m: MValue)
    requires ValidDir(dir) && col < |dir.keyColumns| == |keys|
    requires forall c :: 0 <= c < |keys| && keys[c].Some? ==> NoNul(keys[c].value)
    requires 0 <= col && 0 < used
    ensures var kc := dir.keyColumns[col];
      var m' := V.ValueSpec(m, Some(eng.keyColumn(kc)), keys[col]);
      BindParts(eng, KeyParts(dir, eng, keys, KeyWalk(dir, col, used, done, eng.keyPartCount)), m) ==
        if !MvalIsUsable(m') || eng.setKeyPartFails(kc.relOp, m') then Bound(false, m')
        else if done + 1 < eng.keyPartCount then
          BindParts(eng, KeyParts(dir, eng, keys, KeyWalk(dir, kc.nextInKey, used - 1, done + 1, eng.keyPartCount)), m')
        else Bound(true, m')
  {
    var walk := KeyWalk(dir, col, used, done, eng.keyPartCount);
    assert KeyParts(dir, eng, keys, walk)[1..] == KeyParts(dir, eng, keys, walk[1..]);
  }

  /** The walk ends at a column of -1 or when key_columns_used runs out. */
  lemma KeyWalkStop(dir: Dir, eng: Engine, keys: seq<Option<seq<byte>>>, col: int, used: int, done: nat, m: MValue)
    requires ValidDir(dir) && col < |dir.keyColumns| == |keys|
    requires col < 0 || used <= 0
    ensures BindParts(eng, KeyParts(dir, eng, keys, KeyWalk(dir, col, used, done, eng.keyPartCount)), m) == Bound(true, m)
  {
  }

  /** The key-part loop of Query(): walk the key chain of the active index
      from its first column while key_columns_used (decremented on every
      test) stays positive, encode and bind each value. */
  method BindKeyParts(dir: Dir, eng: Engine, keys: seq<Option<seq<byte>>>, first: int, keyColumnsUsed: int, m0: MValue)
    returns (b: Bound)
    requires ValidDir(dir) && first < |dir.keyColumns| == |keys|
    requires forall c :: 0 <= c < |keys| && keys[c].Some? ==> NoNul(keys[c].value)
    ensures b == BindParts(eng, KeyParts(dir, eng, keys, KeyWalk(dir, first, keyColumnsUsed, 0, eng.keyPartCount)), m0)
  {
    ghost var target := BindParts(eng, KeyParts(dir, eng, keys, KeyWalk(dir, first, keyColumnsUsed, 0, eng.keyPartCount)), m0);
    var col := first;
    var used := keyColumnsUsed;
    var done: nat := 0;
    var m := m0;
    while true
      invariant col < |dir.keyColumns|
      invariant target == BindParts(eng, KeyParts(dir, eng, keys, KeyWalk(dir, col, used, done, eng.keyPartCount)), m)
      decreases if used > 0 then used else 0
    {
      if col < 0 {
        KeyWalkStop(dir, eng, keys, col, used, done, m);
        return Bound(true, m);
      }
      var before := used;
      used := used - 1;
      if before <= 0 {
        KeyWalkStop(dir, eng, keys, col, before, done, m);
        return Bound(true, m);
      }
      var kc := dir.keyColumns[col];
      KeyWalkStep(dir, eng, keys, col, before, done, m);
      m := V.Value(m, Some(eng.keyColumn(kc)), keys[col]);
      if !MvalIsUsable(m) || eng.setKeyPartFails(kc.relOp, m) {
        return Bound(false, m);
      }
      col := kc.nextInKey;
      done := done + 1;
      if !(done < eng.keyPartCount) {
        return Bound(true, m);
      }
    }
  }

  /** The constants loop of Query(): bind each constant of the active index. */
  method BindConstants(eng: Engine, cs: seq<Constant>, m0: MValue) returns (b: Bound)
    requires forall j :: 0 <= j < |cs| ==> NoNul(cs[j].value)
    ensures b == BindParts(eng, ConstantParts(eng, cs), m0)
  {
    var m := m0;
    var j := 0;
    while j < |cs|
      invariant 0 <= j <= |cs|
      invariant BindParts(eng, ConstantParts(eng, cs), m0) == BindParts(eng, ConstantParts(eng, cs[j..]), m)
    {
      assert cs[j..][1..] == cs[j + 1..];
      m := V.Value(m, Some(eng.constantColumn(cs[j])), Some(cs[j].value));
      if !MvalIsUsable(m) || eng.setKeyPartFails(cs[j].relOp, m) {
        return Bound(false, m);
      }
      j := j + 1;
    }
    b := Bound(true, m);
  }

  // ---------------------------------------------------------------------
  // The scan filters

  /** The terms Query() adds to the NdbScanFilter, inside its AND group. */
  datatype FilterTerm =
    | IsNotNull(colId: nat)
    | CmpText(op: RelOp, colId: nat, text: seq<byte>)              // cmp(cond, col, value, strlen(value))
    | CmpValue(op: RelOp, colId: nat, value: Payload, length: Option<int>)  // cmp on the encoded value

  /** The terms of one filter: a LIKE or NOT LIKE compares the raw text,
      and a LIKE on a nullable column first excludes NULLs; any other
      condition compares the encoded value (with its length for a
      character value). */
  function FilterTerms(kc: KeyCol, col: Column, value: seq<byte>, m: MValue): (r: (seq<FilterTerm>, MValue))
    requires NoNul(value)
  {
    if IsLikeCondition(kc.relOp) then
      ((if kc.relOp == Like && col.nullable then [IsNotNull(col.columnNo)] else [])
         + [CmpText(kc.relOp, col.columnNo, value)], m)
    else
      var m' := V.ValueSpec(m, Some(col), Some(value));
      ([CmpValue(kc.relOp, col.columnNo, m'.u, if m'.use == UseChar then Some(m'.colLen) else None)], m')
  }

  /** isnotnull() comes before cmp() exactly for a LIKE on a nullable
      column; every filter ends with its one cmp(). */
  lemma FilterTermsShape(kc: KeyCol, col: Column, value: seq<byte>, m: MValue)
    requires NoNul(value)
    ensures var t := FilterTerms(kc, col, value, m).0;
      && (t[0] == IsNotNull(col.columnNo) <==> kc.relOp == Like && col.nullable)
      && |t| == (if kc.relOp == Like && col.nullable then 2 else 1)
      && (t[|t| - 1].CmpText? <==> IsLikeCondition(kc.relOp))
      && (t[|t| - 1].CmpText? ==> t[|t| - 1] == CmpText(kc.relOp, col.columnNo, value))
      && (t[|t| - 1].CmpValue? ==> t[|t| - 1].op == kc.relOp && t[|t| - 1].colId == col.columnNo)
  {
  }

  /** The filters of the filter list, in order; None when a filter's base
      column is missing from the table (its column number would be read
      through a null pointer). */
  datatype FilterRun = FilterRun(terms: seq<FilterTerm>, mval: MValue)

  /** Every filter names a key column that was given a C-string value. */
  predicate FilterListReady(dir: Dir, keys: seq<Option<seq<byte>>>, fl: seq<int>) {
    forall i :: 0 <= i < |fl| ==>
      0 <= fl[i] < |dir.keyColumns| && fl[i] < |keys| && keys[fl[i]].Some? && NoNul(keys[fl[i]].value)
  }

  function Filters(dir: Dir, eng: Engine, keys: seq<Option<seq<byte>>>, fl: seq<int>, m: MValue): Option<FilterRun>
    requires FilterListReady(dir, keys, fl)
  {
    if fl == [] then Some(FilterRun([], m))
    else
      match Filters(dir, eng, keys, fl[..|fl| - 1], m)
      case None => None
      case Some(run) =>
        var kc := dir.keyColumns[fl[|fl| - 1]];
        match eng.tableColumn(kc.baseColName)
        case None => None
        case Some(col) =>
          var (t, m') := FilterTerms(kc, col, keys[fl[|fl| - 1]].value, run.mval);
          Some(FilterRun(run.terms + t, m'))
  }

  /** The filter stage: filters are set for every plan from Scan up. */
  function FilterStage(q: Items, dir: Dir, eng: Engine, m: MValue): Option<seq<FilterTerm>>
    requires Consistent(q, dir)
  {
    if PlanRank(q.plan) >= PlanRank(Scan) && q.nFilters != 0 then
      match Filters(dir, eng, q.keys, q.filterList, m)
      case None => None
      case Some(run) => Some(run.terms)
    else Some([])
  }

  /** The filter loop of Query(). */
  method EmitFilters(q: QueryItems, dir: Dir, eng: Engine, m0: MValue) returns (r: Option<FilterRun>)
    requires Consistent(q.Snapshot(), dir)
    ensures r == Filters(dir, eng, q.keys[..], q.filterList, m0)
  {
    var terms: seq<FilterTerm> := [];
    var m := m0;
    var nfilt := 0;
    while nfilt < q.nFilters
      invariant 0 <= nfilt <= q.nFilters
      invariant Filters(dir, eng, q.keys[..], q.filterList[..nfilt], m0) == Some(FilterRun(terms, m))
    {
      var n := q.filterList[nfilt];
      var kc := dir.keyColumns[n];
      assert q.filterList[..nfilt + 1][..nfilt] == q.filterList[..nfilt];
      var col := eng.tableColumn(kc.baseColName);
      if col.None? {
        FiltersStopAtMissing(dir, eng, q.keys[..], q.filterList, nfilt + 1, m0);
        return None;
      }
      var value := q.keys[n].value;
      var t: seq<FilterTerm>;
      if IsLikeCondition(kc.relOp) {
        t := if kc.relOp == Like && col.value.nullable then [IsNotNull(col.value.columnNo)] else [];
        t := t + [CmpText(kc.relOp, col.value.columnNo, value)];
      } else {
        m := V.Value(m, col, Some(value));
        if m.use == UseChar {
          t := [CmpValue(kc.relOp, col.value.columnNo, m.u, Some(m.colLen))];
        } else {
          t := [CmpValue(kc.relOp, col.value.columnNo, m.u, None)];
        }
      }
      terms := terms + t;
      nfilt := nfilt + 1;
    }
    assert q.filterList[..nfilt] == q.filterList;
    r := Some(FilterRun(terms, m));
  }

  /** A missing base column ends the whole filter run. */
  lemma {:induction false} FiltersStopAtMissing(dir: Dir, eng: Engine, keys: seq<Option<seq<byte>>>, fl: seq<int>, k: nat, m: MValue)
    requires FilterListReady(dir, keys, fl)
    requires 1 <= k <= |fl| && eng.tableColumn(dir.keyColumns[fl[k - 1]].baseColName).None?
    ensures Filters(dir, eng, keys, fl[..k], m).None?
    ensures Filters(dir, eng, keys, fl, m).None?
    decreases |fl|
  {
    assert fl[..k][..k - 1] == fl[..k - 1];
    if k < |fl| {
      FiltersStopAtMissing(dir, eng, keys, fl[..|fl| - 1], k, m);
      assert fl[..|fl| - 1][..k] == fl[..k];
    } else {
      assert fl[..k] == fl;
    }
  }

  // ---------------------------------------------------------------------
  // set_up_write

  /** Whether updatable column key has both a form item and a table column. */
  predicate Assigned(req: Request, eng: Engine, key: seq<byte>) {
    req.formItem(key).Some? && eng.tableColumn(key).Some?
  }

  /** The mvalue set_up_write() leaves for one updatable column: the item's
      text encoded, then its bytes when the column wants binary data; the
      entry is left alone when the item or the column is missing. */
  function WriteValue(m: MValue, req: Request, eng: Engine, key: seq<byte>): MValue
    requires forall k :: req.formItem(k).Some? ==> req.formItem(k).value.len <= |req.formItem(k).value.str|
  {
    if !Assigned(req, eng, key) then m
    else ItemValue(m, eng.tableColumn(key).value, req.formItem(key).value)
  }

  /** An item's text encoded for col, then its bytes when col wants binary data. */
  function ItemValue(m: MValue, col: Column, item: LenString): MValue
    requires item.len <= |item.str|
  {
    var v := V.ValueSpec(m, Some(col), Some(CStr(item.str)));
    if v.use == MustUseBinary then V.BinaryValueSpec(v, col, item) else v
  }

  /** The entries set_up_write() leaves for the updatable columns keys,
      from the entries orig it starts with. */
  function Writes(orig: seq<MValue>, req: Request, eng: Engine, keys: seq<seq<byte>>): (r: seq<MValue>)
    requires |orig| == |keys|
    requires forall k :: req.formItem(k).Some? ==> req.formItem(k).value.len <= |req.formItem(k).value.str|
    ensures |r| == |orig|
    ensures forall n :: 0 <= n < |r| ==> r[n] == WriteValue(orig[n], req, eng, keys[n])
  {
    if orig == [] then []
    else Writes(orig[..|orig| - 1], req, eng, keys[..|keys| - 1]) + [WriteValue(orig[|orig| - 1], req, eng, keys[|keys| - 1])]
  }

  /** The operation set_up_write() requests: an insert when asked for, else
      an interpreted update when some value is an increment or decrement,
      else a plain write. */
  function WriteCall(isInsert: bool, interpreted: bool): (c: SetupCall)
  {
    if isInsert then InsertTuple else if interpreted then InterpretedUpdateTuple else WriteTuple
  }

  /** Whether some updatable column with an item gets an interpreted value. */
  predicate AnyInterpreted(vals: seq<MValue>, req: Request, eng: Engine, keys: seq<seq<byte>>)
    requires |vals| == |keys|
  {
    exists n :: 0 <= n < |keys| && Assigned(req, eng, keys[n]) && vals[n].use == UseInterpreted
  }

  /** The body of the set_up_write() loop for an item and its column:
      encode the item's text, and retry with its bytes when the column
      wants binary data. */
  method EncodeItem(m: MValue, col: Column, item: LenString) returns (r: MValue)
    requires item.len <= |item.str|
    ensures r == ItemValue(m, col, item)
  {
    var val := CStr(item.str);
    r := V.Value(m, Some(col), Some(val));
    if r.use == MustUseBinary {
      r := V.BinaryValue(r, col, item);
    }
  }

  /** The state of the set_up_write() loop after n columns. */
  ghost predicate WriteState(orig: seq<MValue>, cur: seq<MValue>, req: Request, eng: Engine, keys: seq<seq<byte>>,
                             n: int, interpreted: bool)
  {
    && (forall k :: req.formItem(k).Some? ==> req.formItem(k).value.len <= |req.formItem(k).value.str|)
    && 0 <= n <= |keys| && |orig| == |keys| && |cur| == |keys|
    && cur[..n] == Writes(orig[..n], req, eng, keys[..n])
    && cur[n..] == orig[n..]
    && (interpreted <==> exists k :: 0 <= k < n && Assigned(req, eng, keys[k]) && cur[k].use == UseInterpreted)
  }

  lemma WriteStep(orig: seq<MValue>, cur: seq<MValue>, req: Request, eng: Engine, keys: seq<seq<byte>>,
                  n: int, interpreted: bool)
    requires WriteState(orig, cur, req, eng, keys, n, interpreted) && n < |keys|
    ensures cur[n] == orig[n]
    ensures var w := WriteValue(orig[n], req, eng, keys[n]);
      && (!Assigned(req, eng, keys[n]) ==> w == cur[n])
      && WriteState(orig, cur[n := w], req, eng, keys, n + 1,
                    interpreted || (Assigned(req, eng, keys[n]) && w.use == UseInterpreted))
  {
    var w := WriteValue(orig[n], req, eng, keys[n]);
    var cur' := cur[n := w];
    assert orig[..n + 1][..n] == orig[..n] && keys[..n + 1][..n] == keys[..n];
    assert cur'[..n + 1] == cur[..n] + [w];
    assert cur'[n + 1..] == cur[n + 1..];
    assert cur[n] == cur[n..][0];
  }

  lemma WriteDone(orig: seq<MValue>, cur: seq<MValue>, req: Request, eng: Engine, keys: seq<seq<byte>>, interpreted: bool)
    requires WriteState(orig, cur, req, eng, keys, |keys|, interpreted)
    ensures cur == Writes(orig, req, eng, keys)
    ensures interpreted == AnyInterpreted(cur, req, eng, keys)
  {
    assert orig[..|keys|] == orig && keys[..|keys|] == keys && cur[..|keys|] == cur;
  }

  /** set_up_write(): encode each updatable column's item into set_vals[n],
      then choose the operation. */
  method SetUpWrite(setVals: array<MValue>, req: Request, dir: Dir, eng: Engine, isInsert: bool)
    returns (call: SetupCall)
    requires setVals.Length == |dir.updatable|
    requires forall k :: req.formItem(k).Some? ==> req.formItem(k).value.len <= |req.formItem(k).value.str|
    modifies setVals
    ensures setVals[..] == Writes(old(setVals[..]), req, eng, dir.updatable)
    ensures call == WriteCall(isInsert, AnyInterpreted(setVals[..], req, eng, dir.updatable))
  {
    ghost var orig := setVals[..];
    var isInterpreted := false;
    var n := 0;
    while n < |dir.updatable|
      invariant WriteState(orig, setVals[..], req, eng, dir.updatable, n, isInterpreted)
    {
      var key := dir.updatable[n];
      var binaryVal := req.formItem(key);
      ghost var cur := setVals[..];
      WriteStep(orig, cur, req, eng, dir.updatable, n, isInterpreted);
      if binaryVal.Some? {
        var col := eng.tableColumn(key);
        if col.Some? {
          var mval := EncodeItem(setVals[n], col.value, binaryVal.value);
          setVals[n] := mval;
          if mval.use == UseInterpreted {
            isInterpreted := true;
          }
        }
      }
      n := n + 1;
    }
    WriteDone(orig, setVals[..], req, eng, dir.updatable, isInterpreted);
    call := WriteCall(isInsert, isInterpreted);
  }

  /** The choice of operation: insert wins; otherwise the update is
      interpreted exactly when some assigned value is. */
  lemma WriteCallChoice(isInsert: bool, interpreted: bool)
    ensures WriteCall(isInsert, interpreted) == InsertTuple <==> isInsert
    ensures WriteCall(isInsert, interpreted) == InterpretedUpdateTuple <==> !isInsert && interpreted
    ensures WriteCall(isInsert, interpreted) == WriteTuple <==> !isInsert && !interpreted
  {
  }

  /** An update whose item for a numeric column says "@++" or "@--" is an
      interpreted update. */
  lemma IncrementMakesInterpretedUpdate(m: MValue, req: Request, eng: Engine, key: seq<byte>)
    requires forall k :: req.formItem(k).Some? ==> req.formItem(k).value.len <= |req.formItem(k).value.str|
    requires Assigned(req, eng, key)
    requires CStr(req.formItem(key).value.str) in {AtIncrement, AtDecrement}
    requires var t := eng.tableColumn(key).value.colType; !IsCharType(t) && !IsTemporalType(t)
    ensures WriteValue(m, req, eng, key).use == UseInterpreted
  {
    var col := eng.tableColumn(key).value;
    V.ValueIncrementDecrement(m, col);
  }

  // ---------------------------------------------------------------------
  // The ndb_instance and the whole of Query()

  /** The ndb_instance fields Query() updates: whether a transaction is
      open, the aborted flag, the read operations used, and whether
      cleanup() has run. */
  datatype InstState = InstState(txOpen: bool, aborted: bool, nReadOps: nat, cleanedUp: bool)

  /** The abort2 label: forget the transaction, then mark the instance
      aborted when the client keeps its transaction open, or clean it up. */
  function Abort2(keepTxOpen: bool, st: InstState): (r: InstState)
    ensures !r.txOpen && r.nReadOps == st.nReadOps
    ensures r.aborted == (st.aborted || keepTxOpen) && r.cleanedUp == (st.cleanedUp || !keepTxOpen)
  {
    if keepTxOpen then st.(txOpen := false, aborted := true) else st.(txOpen := false, cleanedUp := true)
  }

  /** A response code of 0 at abort2 becomes 500. */
  function AbortCode(code: int): (r: int)
    ensures r != OK && (code != OK ==> r == code)
  {
    if code == OK then 500 else code
  }

  class NdbInstance {
    var txOpen: bool
    var aborted: bool
    var nReadOps: nat
    var cleanedUp: bool
    /** server_config->max_read_operations. */
    const maxReadOps: nat

    function State(): InstState
      reads this
    {
      InstState(txOpen, aborted, nReadOps, cleanedUp)
    }

    constructor (maxReadOps: nat)
      ensures State() == InstState(false, false, 0, false) && this.maxReadOps == maxReadOps
    {
      this.maxReadOps := maxReadOps;
      txOpen, aborted, nReadOps, cleanedUp := false, false, 0, false;
    }

    /** The abort2 path. */
    method Abort(keepTxOpen: bool)
      modifies this
      ensures State() == Abort2(keepTxOpen, old(State()))
    {
      txOpen := false;
      if keepTxOpen {
        aborted := true;
      } else {
        cleanedUp := true;
      }
    }
  }

  /** What Query() returns. NullDereference stands for the paths that go
      through a null pointer. */
  datatype Outcome = Respond(code: int) | Executed(code: int) | NullDereference

  /** The outcome, the operation setup requested of the NDB operation (if
      Query() got that far), the set_vals array, the scan-filter terms, and
      whether the transaction was closed (the abort1 label). */
  datatype Run = Run(outcome: Outcome, setupCall: Option<SetupCall>, setVals: seq<MValue>,
                     filters: seq<FilterTerm>, closedTx: bool)

  /** The zero-filled set_vals array of a POST. */
  function Blanks(n: nat): (r: seq<MValue>)
    ensures |r| == n && forall i :: 0 <= i < n ==> r[i] == Blank
  {
    seq(n, _ => Blank)
  }

  /** The setup module: the call it makes and the set_vals it leaves. */
  function SetupSpec(setup: SetupStep, q: Items, dir: Dir, eng: Engine, req: Request, vals: seq<MValue>): (seq<MValue>, SetupCall)
    requires RequestReady(req, dir) && -1 <= q.activeIndex < |dir.indexes|
    requires q.plan == OrderedIndexScan ==> q.activeIndex >= 0
    requires setup in {SetupWrite, SetupInsert} ==> |vals| == |dir.updatable|
  {
    match setup
    case SetupRead => (vals, ReadSetup(q, dir))
    case SetupDelete => (vals, DeleteTuple)
    case _ =>
      var w := Writes(vals, req, eng, dir.updatable);
      (w, WriteCall(setup == SetupInsert, AnyInterpreted(w, req, eng, dir.updatable)))
  }

  /** What the action module returns: Plan::Read and Plan::Delete return 0;
      Plan::Write is not part of this model. */
  function ActionCode(action: ActionStep, eng: Engine): int {
    if action == WriteAction then eng.writeActionCode else OK
  }

  /** The abort1 label: close the transaction, then abort2. */
  function Closed(code: int, call: Option<SetupCall>, vals: seq<MValue>, terms: seq<FilterTerm>,
                  req: Request, st: InstState): (Run, InstState)
  {
    (Run(Respond(AbortCode(code)), call, vals, terms, true), Abort2(req.keepTxOpen, st))
  }

  /** The two successful returns: OK when the client keeps the transaction
      open, else what ExecuteAll() returns. */
  predicate Succeeded(o: Outcome) {
    o == Respond(OK) || o.Executed?
  }

  /** How the stages after the transaction is open leave the instance:
      they use no read operation; a closed transaction means an error
      response and the abort2 state; otherwise the instance is as it was,
      and on success the client's keep-open flag picks the response. */
  predicate Settled(req: Request, st: InstState, r: (Run, InstState)) {
    && r.1.nReadOps == st.nReadOps
    && (r.0.closedTx ==> r.1 == Abort2(req.keepTxOpen, st) && r.0.outcome.Respond? && r.0.outcome.code != OK)
    && (!r.0.closedTx ==> r.1 == st)
    && (Succeeded(r.0.outcome) ==> !r.0.closedTx && (r.0.outcome == Respond(OK) <==> req.keepTxOpen))
  }

  /** The action module, then the return or the abort. */
  function Finish(action: ActionStep, eng: Engine, call: SetupCall, vals: seq<MValue>, terms: seq<FilterTerm>,
                  req: Request, st: InstState): (r: (Run, InstState))
    ensures Settled(req, st, r) && r.0.setupCall == Some(call) && r.0.setVals == vals && r.0.filters == terms
    ensures Succeeded(r.0.outcome) <==> ActionCode(action, eng) == OK
  {
    var code := ActionCode(action, eng);
    if code == OK then
      (Run(if req.keepTxOpen then Respond(OK) else Executed(eng.executeAllCode), Some(call), vals, terms, false), st)
    else Closed(code, Some(call), vals, terms, req, st)
  }

  /** After the key parts: a failed bind aborts with 500; otherwise the
      filters are set and the action runs. */
  function AfterKeys(q: Items, dir: Dir, eng: Engine, b: Bound, call: SetupCall, vals: seq<MValue>,
                     action: ActionStep, req: Request, st: InstState): (r: (Run, InstState))
    requires Consistent(q, dir)
    ensures Settled(req, st, r) && r.0.setupCall == Some(call) && r.0.setVals == vals
    ensures !b.ok ==> r == Closed(500, Some(call), vals, [], req, st)
    ensures Succeeded(r.0.outcome) ==> b.ok && FilterStage(q, dir, eng, b.mval) == Some(r.0.filters)
  {
    if !b.ok then Closed(500, Some(call), vals, [], req, st)
    else match FilterStage(q, dir, eng, b.mval)
      case None => (Run(NullDereference, Some(call), vals, [], false), st)
      case Some(terms) => Finish(action, eng, call, vals, terms, req, st)
  }

  /** After the setup call: a nonzero return aborts with 404; otherwise
      the key parts are bound. */
  function AfterSetup(q: Items, dir: Dir, eng: Engine, call: SetupCall, vals: seq<MValue>,
                      action: ActionStep, req: Request, st: InstState): (r: (Run, InstState))
    requires ValidDir(dir) && Consistent(q, dir) && -1 <= q.activeIndex < |dir.indexes|
    ensures Settled(req, st, r) && r.0.setupCall == Some(call) && r.0.setVals == vals
    ensures eng.setupCode(call) != OK ==> r == Closed(404, Some(call), vals, [], req, st)
    ensures Succeeded(r.0.outcome) ==> eng.setupCode(call) == OK && KeyStage(q, dir, eng).ok
  {
    if eng.setupCode(call) != OK then Closed(404, Some(call), vals, [], req, st)
    else AfterKeys(q, dir, eng, KeyStage(q, dir, eng), call, vals, action, req, st)
  }

  /** Query() from the choice of index object on, with a transaction open. */
  function ExecuteSpec(req: Request, dir: Dir, eng: Engine, q: Items, setup: SetupStep, action: ActionStep,
                       vals: seq<MValue>, st: InstState): (r: (Run, InstState))
    requires RequestReady(req, dir) && Consistent(q, dir) && -1 <= q.activeIndex < |dir.indexes|
    requires setup in {SetupWrite, SetupInsert} ==> |vals| == |dir.updatable|
    ensures Settled(req, st, r)
    ensures SelectIndex(q, dir, eng) == IndexAbort ==> r == Closed(500, None, vals, [], req, st)
    ensures Succeeded(r.0.outcome) ==>
      && SelectIndex(q, dir, eng).Chosen?
      && r.0.setupCall.Some? && eng.setupCode(r.0.setupCall.value) == OK
      && (r.0.setVals, r.0.setupCall.value) == SetupSpec(setup, q, dir, eng, req, vals)
  {
    match SelectIndex(q, dir, eng)
    case NoIndexObject => (Run(NullDereference, None, vals, [], false), st)
    case IndexAbort => Closed(500, None, vals, [], req, st)
    case Chosen(_) =>
      var (vals', call) := SetupSpec(setup, q, dir, eng, req, vals);
      AfterSetup(q, dir, eng, call, vals', action, req, st)
  }

  /** Query() after planning: a GET without a plan is answered 404; a
      transaction is opened unless one is open, which fails with 500 on an
      aborted instance; then the plan runs. */
  function AfterPlanning(req: Request, dir: Dir, eng: Engine, q: Items, setup: SetupStep, action: ActionStep,
                         vals: seq<MValue>, st: InstState): (r: (Run, InstState))
    requires RequestReady(req, dir) && Consistent(q, dir) && -1 <= q.activeIndex < |dir.indexes|
    requires setup in {SetupWrite, SetupInsert} ==> |vals| == |dir.updatable|
    ensures r.1.nReadOps == st.nReadOps
    ensures req.methodNumber == MGet && !(dir.tableScan || q.activeIndex >= 0) ==>
      r == (Run(Respond(404), None, vals, [], false), Abort2(req.keepTxOpen, st))
    ensures r.0.closedTx ==>
      !r.1.txOpen && r.0.outcome.Respond? && r.0.outcome.code != OK && r.1.aborted == (st.aborted || req.keepTxOpen)
    ensures Succeeded(r.0.outcome) ==>
      && r.1.txOpen && !r.0.closedTx && (r.0.outcome == Respond(OK) <==> req.keepTxOpen)
      && r.0.setupCall.Some? && eng.setupCode(r.0.setupCall.value) == OK
      && SelectIndex(q, dir, eng).Chosen?
      && (r.0.setVals, r.0.setupCall.value) == SetupSpec(setup, q, dir, eng, req, vals)
  {
    if req.methodNumber == MGet && !(dir.tableScan || q.activeIndex >= 0) then
      (Run(Respond(404), None, vals, [], false), Abort2(req.keepTxOpen, st))
    else InTransaction(req, dir, eng, q, setup, action, vals, st)
  }

  /** The transaction step: an open transaction is reused; otherwise an
      aborted instance answers 500 and a new transaction is started. */
  function InTransaction(req: Request, dir: Dir, eng: Engine, q: Items, setup: SetupStep, action: ActionStep,
                         vals: seq<MValue>, st: InstState): (r: (Run, InstState))
    requires RequestReady(req, dir) && Consistent(q, dir) && -1 <= q.activeIndex < |dir.indexes|
    requires setup in {SetupWrite, SetupInsert} ==> |vals| == |dir.updatable|
    ensures r.1.nReadOps == st.nReadOps
    ensures r.0.closedTx ==>
      !r.1.txOpen && r.0.outcome.Respond? && r.0.outcome.code != OK && r.1.aborted == (st.aborted || req.keepTxOpen)
    ensures Succeeded(r.0.outcome) ==>
      && r.1.txOpen && !r.0.closedTx && (r.0.outcome == Respond(OK) <==> req.keepTxOpen)
      && r.0.setupCall.Some? && eng.setupCode(r.0.setupCall.value) == OK
      && SelectIndex(q, dir, eng).Chosen?
      && (r.0.setVals, r.0.setupCall.value) == SetupSpec(setup, q, dir, eng, req, vals)
  {
    if !st.txOpen && st.aborted then
      (Run(Respond(500), None, vals, [], false), Abort2(req.keepTxOpen, st))
    else if !st.txOpen && !eng.startTransactionOk then
      (Run(NullDereference, None, vals, [], false), st)
    else ExecuteSpec(req, dir, eng, q, setup, action, vals, st.(txOpen := true))
  }

  /** The items the planner leaves for the plan the method switch forced. */
  function PlannedItems(req: Request, dir: Dir, plan: AccessPlan): (q: Items)
    requires RequestReady(req, dir)
    ensures Consistent(q, dir) && -1 <= q.activeIndex < |dir.indexes|
  {
    PlannedConsistent(req, dir, Seeded(plan, dir));
    Planned(req, dir, Seeded(plan, dir))
  }

  /** Query(): its response and the new state of the instance. Whatever
      the request, a GET uses one read operation exactly when it is
      within the limit; a success leaves the transaction open; and a
      closed transaction means an error response and an instance that no
      longer holds a transaction. */
  function QuerySpec(req: Request, dir: Dir, eng: Engine, st: InstState, maxReadOps: nat): (r: (Run, InstState))
    requires RequestReady(req, dir)
    ensures r.1.nReadOps == st.nReadOps + (if eng.tableFound && req.sourceMethod == MGet && st.nReadOps < maxReadOps then 1 else 0)
    ensures Succeeded(r.0.outcome) ==>
      && r.1.txOpen && !r.0.closedTx && (r.0.outcome == Respond(OK) <==> req.keepTxOpen)
      && r.0.setupCall.Some? && eng.setupCode(r.0.setupCall.value) == OK
    ensures r.0.closedTx ==>
      !r.1.txOpen && r.0.outcome.Respond? && r.0.outcome.code != OK && r.1.aborted == (st.aborted || req.keepTxOpen)
  {
    if !eng.tableFound then (Run(Respond(500), None, [], [], false), st)
    else match MethodStage(req, dir, eng, st.nReadOps, maxReadOps)
      case Stop(code) => (Run(Respond(code), None, [], [], false), st)
      case Go(setup, action, plan0) =>
        var st1 := if req.sourceMethod == MGet then st.(nReadOps := st.nReadOps + 1) else st;
        var vals := if req.sourceMethod == MPost then Blanks(|dir.updatable|) else [];
        AfterPlanning(req, dir, eng, PlannedItems(req, dir, plan0), setup, action, vals, st1)
  }

  /** The key parts of the active index, then its constants; nothing for
      a scan or without an active index. */
  method BindIndexKeys(q: QueryItems, dir: Dir, eng: Engine) returns (b: Bound)
    requires ValidDir(dir) && Consistent(q.Snapshot(), dir) && -1 <= q.activeIndex < |dir.indexes|
    ensures b == KeyStage(q.Snapshot(), dir, eng)
  {
    b := Bound(true, Blank);
    if q.plan != Scan && q.activeIndex >= 0 {
      var ix := dir.indexes[q.activeIndex];
      b := BindKeyParts(dir, eng, q.keys[..], ix.firstCol, q.keyColumnsUsed, Blank);
      if b.ok {
        b := BindConstants(eng, ix.constants, b.mval);
      }
    }
  }

  /** The key parts, the constants, the filters and the action of Query(). */
  method BindAndAct(inst: NdbInstance, q: QueryItems, setVals: array<MValue>, call: SetupCall, action: ActionStep,
                    req: Request, dir: Dir, eng: Engine) returns (run: Run)
    requires ValidDir(dir) && Consistent(q.Snapshot(), dir) && -1 <= q.activeIndex < |dir.indexes|
    modifies inst
    ensures (run, inst.State()) == AfterSetup(q.Snapshot(), dir, eng, call, setVals[..], action, req, old(inst.State()))
  {
    if eng.setupCode(call) != OK {
      run := Run(Respond(AbortCode(404)), Some(call), setVals[..], [], true);
      inst.Abort(req.keepTxOpen);
      return;
    }
    var b := BindIndexKeys(q, dir, eng);
    run := FilterAndAct(inst, q, setVals, b, call, action, req, dir, eng);
  }

  /** The filter stage of Query(): filters are built for every plan from
      Scan up, when there are filters; None is the null dereference of a
      filter that cannot be built. */
  method BuildFilters(q: QueryItems, dir: Dir, eng: Engine, m: MValue) returns (r: Option<seq<FilterTerm>>)
    requires Consistent(q.Snapshot(), dir)
    ensures r == FilterStage(q.Snapshot(), dir, eng, m)
  {
    if PlanRank(q.plan) >= PlanRank(Scan) && q.nFilters != 0 {
      var fr := EmitFilters(q, dir, eng, m);
      if fr.None? {
        return None;
      }
      return Some(fr.value.terms);
    }
    return Some([]);
  }

  /** The scan filters and the action of Query(), once the key parts are bound. */
  method FilterAndAct(inst: NdbInstance, q: QueryItems, setVals: array<MValue>, b: Bound, call: SetupCall,
                      action: ActionStep, req: Request, dir: Dir, eng: Engine) returns (run: Run)
    requires Consistent(q.Snapshot(), dir)
    modifies inst
    ensures (run, inst.State()) == AfterKeys(q.Snapshot(), dir, eng, b, call, setVals[..], action, req, old(inst.State()))
  {
    if !b.ok {
      run := Run(Respond(AbortCode(500)), Some(call), setVals[..], [], true);
      inst.Abort(req.keepTxOpen);
      return;
    }
    var stage := BuildFilters(q, dir, eng, b.mval);
    if stage.None? {
      return Run(NullDereference, Some(call), setVals[..], [], false);
    }
    var terms := stage.value;
    var code := ActionCode(action, eng);
    if code == OK {
      var outcome := if req.keepTxOpen then Respond(OK) else Executed(eng.executeAllCode);
      return Run(outcome, Some(call), setVals[..], terms, false);
    }
    run := Run(Respond(AbortCode(code)), Some(call), setVals[..], terms, true);
    inst.Abort(req.keepTxOpen);
  }

  /** Query() from the choice of index object on: the index object, then
      the setup module. */
  method Execute(inst: NdbInstance, q: QueryItems, setVals: array<MValue>, setup: SetupStep, action: ActionStep,
                 req: Request, dir: Dir, eng: Engine) returns (run: Run)
    requires RequestReady(req, dir) && Consistent(q.Snapshot(), dir) && -1 <= q.activeIndex < |dir.indexes|
    requires setup in {SetupWrite, SetupInsert} ==> setVals.Length == |dir.updatable|
    modifies inst, setVals
    ensures (run, inst.State()) == ExecuteSpec(req, dir, eng, q.Snapshot(), setup, action, old(setVals[..]), old(inst.State()))
  {
    var items := q.Snapshot();
    var choice := SelectIndex(items, dir, eng);
    if choice.NoIndexObject? {
      return Run(NullDereference, None, setVals[..], [], false);
    }
    if choice.IndexAbort? {
      run := Run(Respond(AbortCode(500)), None, setVals[..], [], true);
      inst.Abort(req.keepTxOpen);
      return;
    }
    var call := RunSetup(setVals, setup, items, req, dir, eng);
    run := BindAndAct(inst, q, setVals, call, action, req, dir, eng);
  }

  /** The setup module of Query(): Plan::SetupRead, Plan::SetupWrite,
      Plan::SetupInsert or Plan::SetupDelete, as the method switch chose. */
  method RunSetup(setVals: array<MValue>, setup: SetupStep, items: Items, req: Request, dir: Dir, eng: Engine)
    returns (call: SetupCall)
    requires RequestReady(req, dir) && -1 <= items.activeIndex < |dir.indexes|
    requires items.plan == OrderedIndexScan ==> items.activeIndex >= 0
    requires setup in {SetupWrite, SetupInsert} ==> setVals.Length == |dir.updatable|
    modifies setVals
    ensures (setVals[..], call) == SetupSpec(setup, items, dir, eng, req, old(setVals[..]))
  {
    match setup {
      case SetupRead => call := ReadSetup(items, dir);
      case SetupWrite => call := SetUpWrite(setVals, req, dir, eng, false);
      case SetupInsert => call := SetUpWrite(setVals, req, dir, eng, true);
      case SetupDelete => call := DeleteTuple;
    }
  }

  /** Query() after planning: the 404 test and the transaction. */
  method OpenAndExecute(inst: NdbInstance, q: QueryItems, setVals: array<MValue>, setup: SetupStep, action: ActionStep,
                        req: Request, dir: Dir, eng: Engine) returns (run: Run)
    requires RequestReady(req, dir) && Consistent(q.Snapshot(), dir) && -1 <= q.activeIndex < |dir.indexes|
    requires setup in {SetupWrite, SetupInsert} ==> setVals.Length == |dir.updatable|
    modifies inst, setVals
    ensures (run, inst.State()) == AfterPlanning(req, dir, eng, q.Snapshot(), setup, action, old(setVals[..]), old(inst.State()))
  {
    if req.methodNumber == MGet && !(dir.tableScan || q.activeIndex >= 0) {
      run := Run(Respond(404), None, setVals[..], [], false);
      inst.Abort(req.keepTxOpen);
      return;
    }
    run := BeginAndExecute(inst, q, setVals, setup, action, req, dir, eng);
  }

  /** The transaction step of Query(), then the plan. */
  method BeginAndExecute(inst: NdbInstance, q: QueryItems, setVals: array<MValue>, setup: SetupStep, action: ActionStep,
                         req: Request, dir: Dir, eng: Engine) returns (run: Run)
    requires RequestReady(req, dir) && Consistent(q.Snapshot(), dir) && -1 <= q.activeIndex < |dir.indexes|
    requires setup in {SetupWrite, SetupInsert} ==> setVals.Length == |dir.updatable|
    modifies inst, setVals
    ensures (run, inst.State()) == InTransaction(req, dir, eng, q.Snapshot(), setup, action, old(setVals[..]), old(inst.State()))
  {
    if !inst.txOpen {
      if inst.aborted {
        run := Run(Respond(500), None, setVals[..], [], false);
        inst.Abort(req.keepTxOpen);
        return;
      }
      if !eng.startTransactionOk {
        return Run(NullDereference, None, setVals[..], [], false);
      }
      inst.txOpen := true;
    }
    run := Execute(inst, q, setVals, setup, action, req, dir, eng);
  }

  /** The method switch of Query(): a GET takes a read operation, a POST
      gets its zeroed set_vals and its form data, and an insert is a POST
      with neither parameters nor path info. */
  method MethodSwitch(inst: NdbInstance, q: QueryItems, req: Request, dir: Dir, eng: Engine)
    returns (choice: MethodChoice, setVals: array<MValue>)
    requires q.plan == NoPlan
    modifies inst, q
    ensures choice == MethodStage(req, dir, eng, old(inst.nReadOps), inst.maxReadOps)
    ensures fresh(setVals)
    ensures choice.Stop? ==> inst.State() == old(inst.State())
    ensures choice.Go? ==>
      && q.Snapshot() == old(q.Snapshot()).(plan := choice.plan)
      && inst.State() == (if req.sourceMethod == MGet then old(inst.State()).(nReadOps := old(inst.nReadOps) + 1) else old(inst.State()))
      && setVals[..] == (if req.sourceMethod == MPost then Blanks(|dir.updatable|) else [])
  {
    setVals := new MValue[0];
    match req.sourceMethod {
      case MGet =>
        if inst.nReadOps < inst.maxReadOps {
          inst.nReadOps := inst.nReadOps + 1;
        } else {
          return Stop(500), setVals;
        }
        choice := Go(SetupRead, ReadAction, q.plan);
      case MPost =>
        setVals := new MValue[|dir.updatable|](_ => Blank);
        if eng.formDataCode != OK {
          return Stop(eng.formDataCode), setVals;
        }
        if req.args.None? && |dir.pathinfo| == 0 {
          q.plan := PrimaryKey;
          choice := Go(SetupInsert, WriteAction, q.plan);
        } else {
          choice := Go(SetupWrite, WriteAction, q.plan);
        }
        assert setVals[..] == Blanks(|dir.updatable|);
      case MDelete =>
        if !dir.allowDelete {
          return Stop(405), setVals;
        }
        choice := Go(SetupDelete, DeleteAction, q.plan);
      case MOtherMethod =>
        return Stop(405), setVals;
    }
  }

  /** Query(): look up the table, set up for the HTTP method, plan the
      access from the parameters and the path info, then open a
      transaction and run the plan. */
  method Query(inst: NdbInstance, req: Request, dir: Dir, eng: Engine) returns (run: Run)
    requires RequestReady(req, dir)
    modifies inst
    ensures (run, inst.State()) == QuerySpec(req, dir, eng, old(inst.State()), inst.maxReadOps)
  {
    if !eng.tableFound {
      return Run(Respond(500), None, [], [], false);
    }
    var q := new QueryItems(|dir.keyColumns|);
    var choice, setVals := MethodSwitch(inst, q, req, dir, eng);
    if choice.Stop? {
      return Run(Respond(choice.code), None, [], [], false);
    }
    run := PlanAndExecute(inst, q, setVals, choice.setup, choice.action, choice.plan, req, dir, eng);
  }

  /** Query() once the method switch has said go: plan, then execute. */
  method PlanAndExecute(inst: NdbInstance, q: QueryItems, setVals: array<MValue>, setup: SetupStep, action: ActionStep,
                        plan0: AccessPlan, req: Request, dir: Dir, eng: Engine) returns (run: Run)
    requires RequestReady(req, dir) && q.Snapshot() == Initial(|dir.keyColumns|).(plan := plan0)
    requires setup in {SetupWrite, SetupInsert} ==> setVals.Length == |dir.updatable|
    modifies inst, setVals, q, q.keys
    ensures (run, inst.State()) == AfterPlanning(req, dir, eng, PlannedItems(req, dir, plan0), setup, action, old(setVals[..]), old(inst.State()))
  {
    ghost var st1, vals := inst.State(), setVals[..];
    PlanAccess(q, req, dir);
    assert inst.State() == st1 && setVals[..] == vals;
    run := OpenAndExecute(inst, q, setVals, setup, action, req, dir, eng);
  }

  /** The planning part of Query(): the table-scan flag and the default
      key, then the request parameters, then the path info. */
  method PlanAccess(q: QueryItems, req: Request, dir: Dir)
    requires RequestReady(req, dir) && q.Snapshot() == Initial(|dir.keyColumns|).(plan := q.plan)
    modifies q, q.keys
    ensures q.Snapshot() == PlannedItems(req, dir, old(q.plan))
  {
    ghost var plan0 := q.plan;
    if dir.tableScan {
      q.plan := Scan;
    }
    if dir.defaultKey >= 0 {
      q.activeIndex := dir.defaultKey;
      var cs := dir.indexes[q.activeIndex].constants;
      if |cs| > 0 {
        q.plan := cs[0].impliedPlan;
      }
    }
    assert q.Snapshot() == Seeded(plan0, dir);
    if req.args.Some? {
      q.ProcessArgs(req.args.value, dir);
    }
    if |dir.pathinfo| > 0 && (q.plan == NoPlan || dir.pathinfoAlways) {
      q.ScanPathInfo(req.pathInfo, dir);
    }
  }

  // ---------------------------------------------------------------------
  // What Query() promises

  /** A method other than GET, POST or DELETE, and a DELETE the directory
      does not allow, are answered 405 before anything else happens. */
  lemma QueryRejectsMethod(req: Request, dir: Dir, eng: Engine, st: InstState, maxReadOps: nat)
    requires RequestReady(req, dir) && eng.tableFound
    requires req.sourceMethod == MOtherMethod || (req.sourceMethod == MDelete && !dir.allowDelete)
    ensures QuerySpec(req, dir, eng, st, maxReadOps) == (Run(Respond(405), None, [], [], false), st)
  {
  }

  /** A GET beyond the read-operation limit is answered 500 and changes
      nothing. */
  lemma QueryReadLimit(req: Request, dir: Dir, eng: Engine, st: InstState, maxReadOps: nat)
    requires RequestReady(req, dir) && eng.tableFound && req.sourceMethod == MGet && st.nReadOps >= maxReadOps
    ensures QuerySpec(req, dir, eng, st, maxReadOps) == (Run(Respond(500), None, [], [], false), st)
  {
  }

  /** A GET whose parameters and path info select neither a table scan
      nor an index is answered 404, and the transaction is dropped. */
  lemma QueryNoPlan404(req: Request, dir: Dir, eng: Engine, st: InstState, maxReadOps: nat)
    requires RequestReady(req, dir) && eng.tableFound && req.sourceMethod == MGet && req.methodNumber == MGet
    requires st.nReadOps < maxReadOps && !dir.tableScan
    requires PlannedItems(req, dir, NoPlan).activeIndex < 0
    ensures QuerySpec(req, dir, eng, st, maxReadOps) ==
      (Run(Respond(404), None, [], [], false), Abort2(req.keepTxOpen, st.(nReadOps := st.nReadOps + 1)))
  {
  }

  /** A POST with neither parameters nor path info is an insert: whatever
      the table-scan flag and a default key later make of the plan, a
      successful one inserts, with set_vals encoded from the form items.
      The plan stays the primary-key plan unless the directory forces a
      scan or a default key. */
  lemma QueryPostInserts(req: Request, dir: Dir, eng: Engine, st: InstState, maxReadOps: nat)
    requires RequestReady(req, dir) && eng.tableFound && req.sourceMethod == MPost
    requires eng.formDataCode == OK && req.args.None? && |dir.pathinfo| == 0
    ensures var (run, _) := QuerySpec(req, dir, eng, st, maxReadOps);
      Succeeded(run.outcome) ==>
        run.setupCall == Some(InsertTuple) && run.setVals == Writes(Blanks(|dir.updatable|), req, eng, dir.updatable)
    ensures !dir.tableScan && dir.defaultKey < 0 ==> PlannedItems(req, dir, PrimaryKey).plan == PrimaryKey
  {
  }
}
