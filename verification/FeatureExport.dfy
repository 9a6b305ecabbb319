/** The model dataset: eligible rows of the exported bucket sizes that are closed by a watermark. */
module FeatureExport {
  import opened Sequences
  import opened BarAggregation
  import opened BarFeatures

  const EXPORTED_SIZES: set<string> := {"15s", "60s"}

  datatype Source = Source(pair: string, log: Log)

  datatype ExportRow = ExportRow(pair: string, size: string, row: FeatureRow)

  datatype ExportError = NoPartitions | NoEligibleRows | DuplicateIdentities | NonFiniteFeature

  predicate ValidSizes(buckets: seq<BucketSize>) {
    forall s :: s in buckets ==> s.ns > 0
  }

  /** The stored feature partition of one pair and bucket size. */
  function Partition(source: Source, bucket: BucketSize, c: Config, lib: Library): (r: seq<ExportRow>)
    requires bucket.ns > 0
    ensures |r| == |Frame(source.log, bucket.ns, lib)|
  {
    var table := Table(source.log, bucket, c, lib);
    seq(|table|, i requires 0 <= i < |table| => ExportRow(source.pair, bucket.name, table[i]))
  }

  function PairRows(source: Source, buckets: seq<BucketSize>, c: Config, lib: Library): seq<ExportRow>
    requires ValidSizes(buckets)
  {
    if buckets == [] then []
    else Partition(source, buckets[0], c, lib) + PairRows(source, buckets[1..], c, lib)
  }

  /** All stored rows of a build. */
  function BuildRows(sources: seq<Source>, buckets: seq<BucketSize>, c: Config, lib: Library): seq<ExportRow>
    requires ValidSizes(buckets)
  {
    if sources == [] then []
    else PairRows(sources[0], buckets, c, lib) + BuildRows(sources[1..], buckets, c, lib)
  }

  predicate Selectable(r: ExportRow, watermark: int) {
    r.row.eligible && r.row.end <= watermark && r.size in EXPORTED_SIZES
  }

  function SelectedBy(watermark: int): ExportRow -> bool { (r: ExportRow) => Selectable(r, watermark) }

  /** Order by pair, then bucket size, then feature timestamp. */
  predicate RowLeq(a: ExportRow, b: ExportRow) {
    if a.pair != b.pair then StringLeq(a.pair, b.pair)
    else if a.size != b.size then StringLeq(a.size, b.size)
    else a.row.end <= b.row.end
  }

  function ExportRows(sources: seq<Source>, buckets: seq<BucketSize>, c: Config, lib: Library, watermark: int): seq<ExportRow>
    requires ValidSizes(buckets)
  {
    SortBy(Filter(BuildRows(sources, buckets, c, lib), SelectedBy(watermark)), RowLeq)
  }

  /** What the row identity hashes: pair, bucket size and bucket start. */
  function Identity(r: ExportRow): (string, string, int) { (r.pair, r.size, r.row.start) }

  predicate Distinct(rows: seq<ExportRow>) {
    forall i, j :: 0 <= i < j < |rows| ==> Identity(rows[i]) != Identity(rows[j])
  }

  predicate Finite(r: FeatureRow) {
    !r.cme.returnClose.NonFinite? && !r.cme.vwapReturn.NonFinite? && !r.mt5.midReturn.NonFinite? && !r.cross.returnDiff.NonFinite?
  }

  function Export(sources: seq<Source>, buckets: seq<BucketSize>, c: Config, lib: Library, watermark: int): Result<seq<ExportRow>, ExportError>
    requires ValidSizes(buckets)
  {
    var rows := ExportRows(sources, buckets, c, lib, watermark);
    if BuildRows(sources, buckets, c, lib) == [] then Err(NoPartitions)
    else if rows == [] then Err(NoEligibleRows)
    else if !Distinct(rows) then Err(DuplicateIdentities)
    else if exists r :: r in rows && !Finite(r.row) then Err(NonFiniteFeature)
    else Ok(rows)
  }

  // ----- order

  lemma RowLeqTotal(a: ExportRow, b: ExportRow)
    ensures RowLeq(a, b) || RowLeq(b, a)
  {
    StringLeqTotal(a.pair, b.pair);
    StringLeqTotal(a.size, b.size);
  }

  lemma RowLeqTransitive(a: ExportRow, b: ExportRow, c: ExportRow)
    requires RowLeq(a, b) && RowLeq(b, c)
    ensures RowLeq(a, c)
  {
    StringLeqTotal(a.pair, b.pair);
    StringLeqTotal(b.pair, c.pair);
    StringLeqTotal(a.size, b.size);
    StringLeqTotal(b.size, c.size);
    if StringLeq(a.pair, b.pair) && StringLeq(b.pair, c.pair) { StringLeqTransitive(a.pair, b.pair, c.pair); }
    if StringLeq(a.size, b.size) && StringLeq(b.size, c.size) { StringLeqTransitive(a.size, b.size, c.size); }
  }

  lemma RowOrder()
    ensures TotalPreorder(RowLeq)
  {
    forall a, b ensures RowLeq(a, b) || RowLeq(b, a) { RowLeqTotal(a, b); }
    forall a, b, c | RowLeq(a, b) && RowLeq(b, c) ensures RowLeq(a, c) { RowLeqTransitive(a, b, c); }
  }

  // ----- identities are unique in one build

  function HasIdentity(id: (string, string, int)): ExportRow -> bool { (r: ExportRow) => Identity(r) == id }

  predicate AtMostOnce(rows: seq<ExportRow>, id: (string, string, int)) {
    |Filter(rows, HasIdentity(id))| <= 1
  }

  lemma PartitionAt(source: Source, bucket: BucketSize, c: Config, lib: Library, i: nat)
    requires bucket.ns > 0 && i < |Partition(source, bucket, c, lib)|
    ensures var keys := AscendingOf(FrameKeys(source.log, bucket.ns));
            i < |keys| && Identity(Partition(source, bucket, c, lib)[i]) == (source.pair, bucket.name, keys[i])
  {
  }

  lemma {:induction false} FilterSingle(rows: seq<ExportRow>, id: (string, string, int))
    requires Distinct(rows)
    ensures AtMostOnce(rows, id)
  {
    if rows != [] {
      FilterSingle(rows[1..], id);
      if Identity(rows[0]) == id { FilterNone(rows[1..], HasIdentity(id)); }
    }
  }

  lemma PartitionDistinct(source: Source, bucket: BucketSize, c: Config, lib: Library)
    requires bucket.ns > 0
    ensures Distinct(Partition(source, bucket, c, lib))
  {
    var p := Partition(source, bucket, c, lib);
    forall i, j | 0 <= i < j < |p| ensures Identity(p[i]) != Identity(p[j]) {
      PartitionAt(source, bucket, c, lib, i);
      PartitionAt(source, bucket, c, lib, j);
    }
  }

  lemma PartitionForeign(source: Source, bucket: BucketSize, c: Config, lib: Library, id: (string, string, int))
    requires bucket.ns > 0 && (source.pair, bucket.name) != (id.0, id.1)
    ensures Filter(Partition(source, bucket, c, lib), HasIdentity(id)) == []
  {
    var p := Partition(source, bucket, c, lib);
    forall r | r in p ensures Identity(r) != id {
      var i :| 0 <= i < |p| && p[i] == r;
      PartitionAt(source, bucket, c, lib, i);
    }
    FilterNone(p, HasIdentity(id));
  }

  predicate DistinctNames(buckets: seq<BucketSize>) {
    forall i, j :: 0 <= i < j < |buckets| ==> buckets[i].name != buckets[j].name
  }

  predicate DistinctPairs(sources: seq<Source>) {
    forall i, j :: 0 <= i < j < |sources| ==> sources[i].pair != sources[j].pair
  }

  lemma {:induction false} PairRowsForeign(source: Source, buckets: seq<BucketSize>, c: Config, lib: Library, id: (string, string, int))
    requires ValidSizes(buckets)
    requires source.pair != id.0 || forall b :: b in buckets ==> b.name != id.1
    ensures Filter(PairRows(source, buckets, c, lib), HasIdentity(id)) == []
  {
    if buckets != [] {
      PairRowsForeign(source, buckets[1..], c, lib, id);
      PartitionForeign(source, buckets[0], c, lib, id);
      FilterAppend(Partition(source, buckets[0], c, lib), PairRows(source, buckets[1..], c, lib), HasIdentity(id));
    }
  }

  lemma {:induction false} PairRowsUnique(source: Source, buckets: seq<BucketSize>, c: Config, lib: Library, id: (string, string, int))
    requires ValidSizes(buckets) && DistinctNames(buckets)
    ensures AtMostOnce(PairRows(source, buckets, c, lib), id)
  {
    if buckets != [] {
      PairRowsUnique(source, buckets[1..], c, lib, id);
      FilterAppend(Partition(source, buckets[0], c, lib), PairRows(source, buckets[1..], c, lib), HasIdentity(id));
      if buckets[0].name == id.1 {
        PartitionDistinct(source, buckets[0], c, lib);
        FilterSingle(Partition(source, buckets[0], c, lib), id);
        PairRowsForeign(source, buckets[1..], c, lib, id);
      } else {
        PartitionForeign(source, buckets[0], c, lib, id);
      }
    }
  }

  lemma {:induction false} BuildRowsForeign(sources: seq<Source>, buckets: seq<BucketSize>, c: Config, lib: Library, id: (string, string, int))
    requires ValidSizes(buckets) && forall s :: s in sources ==> s.pair != id.0
    ensures Filter(BuildRows(sources, buckets, c, lib), HasIdentity(id)) == []
  {
    if sources != [] {
      BuildRowsForeign(sources[1..], buckets, c, lib, id);
      PairRowsForeign(sources[0], buckets, c, lib, id);
      FilterAppend(PairRows(sources[0], buckets, c, lib), BuildRows(sources[1..], buckets, c, lib), HasIdentity(id));
    }
  }

  lemma {:induction false} BuildRowsUnique(sources: seq<Source>, buckets: seq<BucketSize>, c: Config, lib: Library, id: (string, string, int))
    requires ValidSizes(buckets) && DistinctNames(buckets) && DistinctPairs(sources)
    ensures AtMostOnce(BuildRows(sources, buckets, c, lib), id)
  {
    if sources != [] {
      BuildRowsUnique(sources[1..], buckets, c, lib, id);
      FilterAppend(PairRows(sources[0], buckets, c, lib), BuildRows(sources[1..], buckets, c, lib), HasIdentity(id));
      if sources[0].pair == id.0 {
        PairRowsUnique(sources[0], buckets, c, lib, id);
        BuildRowsForeign(sources[1..], buckets, c, lib, id);
      } else {
        PairRowsForeign(sources[0], buckets, c, lib, id);
      }
    }
  }

  lemma {:induction false} FiltersCommute<T>(s: seq<T>, p: T -> bool, q: T -> bool)
    ensures |Filter(Filter(s, p), q)| <= |Filter(s, q)|
  {
    if s != [] {
      FiltersCommute(s[1..], p, q);
      var f := Filter(s[1..], p);
      assert ([s[0]] + f)[1..] == f;
    }
  }

  lemma {:induction false} FilterFinds(rows: seq<ExportRow>, id: (string, string, int), i: nat)
    requires i < |rows| && Identity(rows[i]) == id
    ensures |Filter(rows, HasIdentity(id))| >= 1
  {
    if i > 0 { FilterFinds(rows[1..], id, i - 1); }
  }

  lemma {:induction false} TwiceMeansTwo(rows: seq<ExportRow>, i: nat, j: nat)
    requires i < j < |rows| && Identity(rows[i]) == Identity(rows[j])
    ensures !AtMostOnce(rows, Identity(rows[i]))
  {
    if i > 0 {
      TwiceMeansTwo(rows[1..], i - 1, j - 1);
    } else {
      FilterFinds(rows[1..], Identity(rows[0]), j - 1);
    }
  }

  /** With distinct pairs and distinct bucket sizes the duplicate check never fires. */
  lemma IdentitiesAreUnique(sources: seq<Source>, buckets: seq<BucketSize>, c: Config, lib: Library, watermark: int)
    requires ValidSizes(buckets) && DistinctNames(buckets) && DistinctPairs(sources)
    ensures Distinct(ExportRows(sources, buckets, c, lib, watermark))
    ensures Export(sources, buckets, c, lib, watermark) != Err(DuplicateIdentities)
  {
    var all, rows := BuildRows(sources, buckets, c, lib), ExportRows(sources, buckets, c, lib, watermark);
    RowOrder();
    forall i, j | 0 <= i < j < |rows| ensures Identity(rows[i]) != Identity(rows[j]) {
      if Identity(rows[i]) == Identity(rows[j]) {
        var id := Identity(rows[i]);
        TwiceMeansTwo(rows, i, j);
        FilterSort(Filter(all, SelectedBy(watermark)), RowLeq, HasIdentity(id));
        FiltersCommute(all, SelectedBy(watermark), HasIdentity(id));
        BuildRowsUnique(sources, buckets, c, lib, id);
        assert false;
      }
    }
  }

  lemma ExportMembers(sources: seq<Source>, buckets: seq<BucketSize>, c: Config, lib: Library, watermark: int)
    requires ValidSizes(buckets)
    ensures forall r :: r in ExportRows(sources, buckets, c, lib, watermark) <==>
                        r in BuildRows(sources, buckets, c, lib) && Selectable(r, watermark)
  {
    var all := BuildRows(sources, buckets, c, lib);
    var selected := Filter(all, SelectedBy(watermark));
    FilterMembers(all, SelectedBy(watermark));
    SortMembers(selected, RowLeq);
  }

  /** An export that succeeds is in order and holds exactly the selectable rows of the build, each once. */
  lemma ExportIsExact(sources: seq<Source>, buckets: seq<BucketSize>, c: Config, lib: Library, watermark: int)
    requires ValidSizes(buckets) && Export(sources, buckets, c, lib, watermark).Ok?
    ensures var rows := Export(sources, buckets, c, lib, watermark).value;
            && SortedBy(rows, RowLeq) && Distinct(rows) && rows != []
            && (forall r :: r in rows <==>
                  && r in BuildRows(sources, buckets, c, lib)
                  && r.row.eligible && r.row.end <= watermark && (r.size == "15s" || r.size == "60s"))
            && (forall r :: r in rows ==> Finite(r.row))
  {
    RowOrder();
    SortByIsSorted(Filter(BuildRows(sources, buckets, c, lib), SelectedBy(watermark)), RowLeq);
    ExportMembers(sources, buckets, c, lib, watermark);
  }

  // ----- finiteness

  predicate ZeroMidBefore(frame: seq<BaseRow>, i: nat)
    requires i < |frame|
  {
    i > 0 && MidClose(frame[i]).Some? && MidClose(frame[i - 1]) == Some(0.0)
  }

  lemma ReturnFiniteUnless(frame: seq<BaseRow>, i: nat, f: BaseRow -> Option<real>)
    requires i < |frame|
    ensures Return(frame, i, f).NonFinite? <==> i > 0 && f(frame[i]).Some? && f(frame[i - 1]) == Some(0.0)
  {
  }

  lemma RowFiniteUnless(frame: seq<BaseRow>, i: nat, w: int)
    requires i < |frame| && HoldsEvents(frame[i])
    requires i > 0 ==> HoldsEvents(frame[i - 1])
    ensures !CmeFeaturesAt(frame, i, w).returnClose.NonFinite? && !CmeFeaturesAt(frame, i, w).vwapReturn.NonFinite?
    ensures Mt5FeaturesAt(frame, i).midReturn.NonFinite? <==> ZeroMidBefore(frame, i)
    ensures CrossFeaturesAt(frame, i).returnDiff.NonFinite? ==> ZeroMidBefore(frame, i)
  {
    ReturnFiniteUnless(frame, i, CmeClose);
    ReturnFiniteUnless(frame, i, CmeVwap);
    ReturnFiniteUnless(frame, i, MidClose);
  }

  /**
   * On valid trades a row is non-finite exactly when it has quotes and the previous row of its frame
   * closes on a mid of zero: every other division is guarded or has a positive divisor.
   */
  lemma NonFiniteExactly(log: Log, bucket: BucketSize, c: Config, lib: Library, i: nat)
    requires bucket.ns > 0 && ValidMeansPositive(log.cme) && i < |Frame(log, bucket.ns, lib)|
    ensures !Finite(Table(log, bucket, c, lib)[i]) <==> ZeroMidBefore(Frame(log, bucket.ns, lib), i)
  {
    var keys := AscendingOf(FrameKeys(log, bucket.ns));
    BarsHoldEvents(log, bucket.ns, keys[i], lib);
    if i > 0 { BarsHoldEvents(log, bucket.ns, keys[i - 1], lib); }
    RowFiniteUnless(Frame(log, bucket.ns, lib), i, bucket.ns);
  }

  // ----- order and failures, read from the rows

  /** By pair in dictionary order, then by bucket size, then by feature timestamp. */
  ghost predicate InOrder(a: ExportRow, b: ExportRow) {
    || Precedes(a.pair, b.pair)
    || (a.pair == b.pair && Precedes(a.size, b.size))
    || (a.pair == b.pair && a.size == b.size && a.row.end <= b.row.end)
  }

  /** Each exported row stands before the next ones by pair, bucket size and timestamp. */
  lemma ExportIsOrdered(sources: seq<Source>, buckets: seq<BucketSize>, c: Config, lib: Library, watermark: int, i: nat, j: nat)
    requires ValidSizes(buckets) && i < j < |ExportRows(sources, buckets, c, lib, watermark)|
    ensures InOrder(ExportRows(sources, buckets, c, lib, watermark)[i], ExportRows(sources, buckets, c, lib, watermark)[j])
  {
    var rows := ExportRows(sources, buckets, c, lib, watermark);
    RowOrder();
    SortByIsSorted(Filter(BuildRows(sources, buckets, c, lib), SelectedBy(watermark)), RowLeq);
    assert RowLeq(rows[i], rows[j]);
    StringLeqIsDictionary(rows[i].pair, rows[j].pair);
    StringLeqIsDictionary(rows[i].size, rows[j].size);
  }

  /** An eligible row of an exported size, closed by the watermark. */
  ghost predicate Due(r: ExportRow, watermark: int) {
    r.row.eligible && r.row.end <= watermark && (r.size == "15s" || r.size == "60s")
  }

  /** One of the four returns or their difference came out of a division by zero. */
  ghost predicate Infinite(r: ExportRow) {
    r.row.cme.returnClose == NonFinite || r.row.cme.vwapReturn == NonFinite || r.row.mt5.midReturn == NonFinite || r.row.cross.returnDiff == NonFinite
  }

  /**
   * With distinct pairs and sizes an export fails exactly when nothing was built, when no built row is due,
   * or when a due row holds a non-finite feature, and says which.
   */
  lemma ExportFailsExactly(sources: seq<Source>, buckets: seq<BucketSize>, c: Config, lib: Library, watermark: int)
    requires ValidSizes(buckets) && DistinctNames(buckets) && DistinctPairs(sources)
    ensures var build, e := BuildRows(sources, buckets, c, lib), Export(sources, buckets, c, lib, watermark);
            && (e == Err(NoPartitions) <==> build == [])
            && (e == Err(NoEligibleRows) <==> build != [] && forall r :: r in build ==> !Due(r, watermark))
            && (e == Err(NonFiniteFeature) <==> exists r :: r in build && Due(r, watermark) && Infinite(r))
            && (e.Ok? ==> forall r :: r in e.value <==> r in build && Due(r, watermark))
  {
    var rows := ExportRows(sources, buckets, c, lib, watermark);
    IdentitiesAreUnique(sources, buckets, c, lib, watermark);
    ExportMembers(sources, buckets, c, lib, watermark);
    if rows != [] { assert rows[0] in rows; }
    forall r ensures r in rows <==> r in BuildRows(sources, buckets, c, lib) && Due(r, watermark) {
    }
  }
}
