/** The per-directory configuration the query planner reads (config::dir,
    config::key_col, config::index), and the name lookup over the
    key-column array. */
module QueryConfig {
  import opened Bytes
  import opened CLib
  import opened Wrappers

  /** The access plans, in the order in which a later one overrides an
      earlier one. */
  datatype AccessPlan = NoPlan | Scan | PrimaryKey | UniqueIndexAccess | OrderedIndexScan

  /** The position of a plan in that order. */
  function PlanRank(p: AccessPlan): (r: nat)
    ensures r <= 4 && (r == 0 <==> p == NoPlan)
  {
    match p
    case NoPlan => 0
    case Scan => 1
    case PrimaryKey => 2
    case UniqueIndexAccess => 3
    case OrderedIndexScan => 4
  }

  /** NdbScanFilter::BinaryCondition, in its declaration order. */
  datatype RelOp = Le | Lt | Ge | Gt | Eq | Ne | Like | NotLike

  /** `cond >= COND_LIKE`: the conditions compared as raw text. */
  predicate IsLikeCondition(op: RelOp) {
    op == Like || op == NotLike
  }

  /** A constant of an index (NSQL::Expr): a configured value bound to a
      column of that index. */
  datatype Constant = Constant(colName: seq<byte>, value: seq<byte>, relOp: RelOp, impliedPlan: AccessPlan)

  /** config::key_col: a request parameter name and what it selects. */
  datatype KeyCol = KeyCol(
    name: seq<byte>,
    baseColName: seq<byte>,
    isFilter: bool,
    impliedPlan: AccessPlan,
    indexId: int,
    relOp: RelOp,
    nextInKey: int)

  /** config::index. The index-scan entry of a directory may have no name,
      which means a true table scan. */
  datatype IndexConf = IndexConf(
    name: Option<seq<byte>>,
    firstCol: int,
    constants: seq<Constant>,
    sorted: bool,
    descending: bool)

  /** config::dir, the part of it the planner reads. */
  datatype Dir = Dir(
    keyColumns: seq<KeyCol>,
    indexes: seq<IndexConf>,
    indexScan: IndexConf,
    pathinfo: seq<int>,
    updatable: seq<seq<byte>>,
    tableScan: bool,
    pathinfoAlways: bool,
    allowDelete: bool,
    defaultKey: int)

  /** The key columns are kept sorted by name, as strcmp() orders them. */
  predicate SortedByName(cols: seq<KeyCol>) {
    forall i, j :: 0 <= i < j < |cols| ==> Strcmp(cols[i].name, cols[j].name) < 0
  }

  /** What the configuration phase guarantees about a directory: every
      column and index number it holds points into its arrays. */
  predicate ValidDir(dir: Dir) {
    var k := |dir.keyColumns|;
    && SortedByName(dir.keyColumns)
    && k < Two15
    && (forall i :: 0 <= i < k ==>
          && -1 <= dir.keyColumns[i].indexId < |dir.indexes|
          && -1 <= dir.keyColumns[i].nextInKey < k
          && NoNul(dir.keyColumns[i].baseColName))
    && (forall i :: 0 <= i < |dir.indexes| ==>
          && dir.indexes[i].name.Some?
          && -1 <= dir.indexes[i].firstCol < k
          && (forall j :: 0 <= j < |dir.indexes[i].constants| ==> NoNul(dir.indexes[i].constants[j].value)))
    && (forall i :: 0 <= i < |dir.pathinfo| ==> 0 <= dir.pathinfo[i] < k)
    && |dir.pathinfo| < Two15
    && -1 <= dir.defaultKey < |dir.indexes|
  }

  /** The first position holding name, or -1: the reference the binary
      search is measured against. */
  function NameIndex(cols: seq<KeyCol>, name: seq<byte>): (r: int)
    ensures -1 <= r < |cols|
    ensures r == -1 <==> forall k :: 0 <= k < |cols| ==> cols[k].name != name
    ensures r >= 0 ==> cols[r].name == name && forall k :: 0 <= k < r ==> cols[k].name != name
  {
    if cols == [] then -1
    else if cols[0].name == name then 0
    else
      var r := NameIndex(cols[1..], name);
      assert forall k :: 1 <= k < |cols| ==> cols[k] == cols[1..][k - 1];
      if r == -1 then -1 else r + 1
  }

  /** Sorted names are distinct, so a name sits at one position at most. */
  lemma SortedNamesUnique(cols: seq<KeyCol>, i: int, j: int)
    requires SortedByName(cols) && 0 <= i < |cols| && 0 <= j < |cols|
    requires cols[i].name == cols[j].name
    ensures i == j
  {
  }

  /** key_col_bin_search(): Kernighan's binary search over the sorted
      key-column names. */
  method KeyColBinSearch(name: seq<byte>, cols: seq<KeyCol>) returns (n: int)
    requires SortedByName(cols) && |cols| < Two31
    ensures -1 <= n < |cols|
    ensures n >= 0 ==> cols[n].name == name
    ensures n == -1 <==> forall k :: 0 <= k < |cols| ==> cols[k].name != name
    ensures n == NameIndex(cols, name)
  {
    var low, high := 0, |cols| - 1;
    while low <= high
      invariant 0 <= low <= high + 1 <= |cols|
      invariant forall k :: 0 <= k < low ==> Strcmp(cols[k].name, name) < 0
      invariant forall k :: high < k < |cols| ==> Strcmp(name, cols[k].name) < 0
    {
      var mid := (low + high) / 2;
      var cmp := Strcmp(name, cols[mid].name);
      if cmp < 0 {
        forall k | mid < k < |cols|
          ensures Strcmp(name, cols[k].name) < 0
        {
          StrcmpLessTransitive(name, cols[mid].name, cols[k].name);
        }
        high := mid - 1;
      } else if cmp > 0 {
        StrcmpAntisymmetric(name, cols[mid].name);
        forall k | 0 <= k <= mid
          ensures Strcmp(cols[k].name, name) < 0
        {
          if k < mid {
            StrcmpLessTransitive(cols[k].name, cols[mid].name, name);
          }
        }
        low := mid + 1;
      } else {
        var r := NameIndex(cols, name);
        SortedNamesUnique(cols, r, mid);
        return mid;
      }
    }
    n := -1;
  }
}
