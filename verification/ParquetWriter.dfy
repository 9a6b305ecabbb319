/**
 * The buffered writer: events wait in arrival order, a flush publishes one file per symbol and
 * hour, and a failure part-way puts back exactly what was not published.
 */
module ParquetWriter {
  import opened Sequences
  import opened TickFilter

  const MS_PER_HOUR: int := 3_600_000

  /** An event object; two references are the same object exactly when their identities agree. */
  datatype Buffered = Buffered(identity: nat, event: FilteredEvent)

  datatype Key = Key(symbol: string, hour: int)

  function KeyOf(b: Buffered): Key { Key(b.event.tick.symbol, b.event.tick.recv / MS_PER_HOUR) }

  /** A finalised part file. */
  datatype File = File(key: Key, sequence: nat, rows: seq<Buffered>)

  /** Where a flush goes wrong: in the hook, or at one partition in one of three operations. */
  datatype Fault = NoFault | HookRaises | MkdirFails(at: nat) | WriteFails(at: nat) | ReplaceFails(at: nat)

  datatype FlushResult = Flushed(rows: nat) | Raised

  // ----- specification

  function Group(events: seq<Buffered>, key: Key): seq<Buffered> {
    if events == [] then []
    else
      var init, last := Group(events[..|events| - 1], key), events[|events| - 1];
      if KeyOf(last) == key then init + [last] else init
  }

  /** Partition keys in the order in which they first occur. */
  function KeysOf(events: seq<Buffered>): seq<Key> {
    if events == [] then []
    else
      var init, k := KeysOf(events[..|events| - 1]), KeyOf(events[|events| - 1]);
      if k in init then init else init + [k]
  }

  /** The events whose key is not among the given ones, in their order. */
  function Remaining(events: seq<Buffered>, keys: seq<Key>): seq<Buffered> {
    if events == [] then []
    else
      var init, last := Remaining(events[..|events| - 1], keys), events[|events| - 1];
      if KeyOf(last) in keys then init else init + [last]
  }

  function FilesFor(events: seq<Buffered>, keys: seq<Key>, base: nat): seq<File> {
    if keys == [] then []
    else FilesFor(events, keys[..|keys| - 1], base) + [File(keys[|keys| - 1], base + |keys|, Group(events, keys[|keys| - 1]))]
  }

  /** The rows of one symbol and hour, over all files in publication order. */
  function RowsOf(files: seq<File>, key: Key): seq<Buffered> {
    if files == [] then []
    else
      var init, last := RowsOf(files[..|files| - 1], key), files[|files| - 1];
      if last.key == key then init + last.rows else init
  }

  function RowCount(files: seq<File>): nat {
    if files == [] then 0 else RowCount(files[..|files| - 1]) + |files[|files| - 1].rows|
  }

  ghost predicate Identified(events: seq<Buffered>) {
    forall i, j :: 0 <= i < |events| && 0 <= j < |events| && events[i].identity == events[j].identity ==> events[i] == events[j]
  }

  ghost predicate Subsequence(a: seq<Buffered>, b: seq<Buffered>) {
    a == [] || (b != [] && (Subsequence(a, b[..|b| - 1])
      || (a[|a| - 1] == b[|b| - 1] && Subsequence(a[..|a| - 1], b[..|b| - 1]))))
  }

  /** How many partitions a flush publishes, and whether it then raises. */
  function PublishedCount(fault: Fault, n: nat): nat {
    match fault
    case NoFault => n
    case HookRaises => 0
    case MkdirFails(at) => if at < n then at else n
    case WriteFails(at) => if at < n then at else n
    case ReplaceFails(at) => if at < n then at else n
  }

  predicate Fails(fault: Fault, n: nat) { fault.HookRaises? || PublishedCount(fault, n) < n }

  // ----- lemmas about grouping

  lemma GroupSnoc(events: seq<Buffered>, e: Buffered, key: Key)
    ensures Group(events + [e], key) == if KeyOf(e) == key then Group(events, key) + [e] else Group(events, key)
  {
    assert (events + [e])[..|events|] == events;
  }

  lemma {:induction false} GroupMembers(events: seq<Buffered>, key: Key)
    ensures forall e :: e in Group(events, key) <==> e in events && KeyOf(e) == key
  {
    if events != [] {
      GroupMembers(events[..|events| - 1], key);
      assert events == events[..|events| - 1] + [events[|events| - 1]];
    }
  }

  lemma {:induction false} KeysOfMembers(events: seq<Buffered>)
    ensures forall k :: k in KeysOf(events) <==> exists e :: e in events && KeyOf(e) == k
    ensures forall e :: e in events ==> KeyOf(e) in KeysOf(events)
    ensures forall i, j :: 0 <= i < j < |KeysOf(events)| ==> KeysOf(events)[i] != KeysOf(events)[j]
  {
    if events != [] {
      var init, last := events[..|events| - 1], events[|events| - 1];
      KeysOfMembers(init);
      assert events == init + [last];
      assert last in events;
      forall k | k in KeysOf(events) ensures exists e :: e in events && KeyOf(e) == k {
        if k in KeysOf(init) {
          var e :| e in init && KeyOf(e) == k;
          assert e in events;
        }
      }
      forall e | e in events ensures KeyOf(e) in KeysOf(events) {
        assert e in init || e == last;
      }
    }
  }

  lemma FirstOfItsKey(events: seq<Buffered>, key: Key)
    requires key !in KeysOf(events)
    ensures Group(events, key) == []
  {
    GroupMembers(events, key);
    KeysOfMembers(events);
    var g := Group(events, key);
    assert forall i :: 0 <= i < |g| ==> g[i] in g;
  }

  lemma {:induction false} RemainingShrinks(events: seq<Buffered>, keys: seq<Key>, key: Key)
    requires key !in keys
    ensures |Remaining(events, keys + [key])| + |Group(events, key)| == |Remaining(events, keys)|
  {
    if events != [] { RemainingShrinks(events[..|events| - 1], keys, key); }
  }

  lemma {:induction false} RowsBalance(events: seq<Buffered>, keys: seq<Key>, base: nat)
    requires forall i, j :: 0 <= i < j < |keys| ==> keys[i] != keys[j]
    ensures RowCount(FilesFor(events, keys, base)) + |Remaining(events, keys)| == |events|
  {
    if keys == [] {
      NothingRemoved(events);
    } else {
      var n := |keys| - 1;
      var files := FilesFor(events, keys[..n], base);
      RowsBalance(events, keys[..n], base);
      assert keys == keys[..n] + [keys[n]] && keys[n] !in keys[..n];
      RemainingShrinks(events, keys[..n], keys[n]);
      assert FilesFor(events, keys, base)[..n] == files by { FilesForLength(events, keys[..n], base); }
    }
  }

  lemma {:induction false} FilesForLength(events: seq<Buffered>, keys: seq<Key>, base: nat)
    ensures |FilesFor(events, keys, base)| == |keys|
  {
    if keys != [] { FilesForLength(events, keys[..|keys| - 1], base); }
  }

  lemma {:induction false} NothingRemoved(events: seq<Buffered>)
    ensures Remaining(events, []) == events
  {
    if events != [] { NothingRemoved(events[..|events| - 1]); }
  }

  lemma AllRemoved(events: seq<Buffered>)
    ensures Remaining(events, KeysOf(events)) == []
  {
    RemainingMembers(events, KeysOf(events));
    KeysOfMembers(events);
    if Remaining(events, KeysOf(events)) != [] {
      FirstIsMember(Remaining(events, KeysOf(events)));
      assert false;
    }
  }

  lemma {:induction false} RowCountAppend(a: seq<File>, b: seq<File>)
    ensures RowCount(a + b) == RowCount(a) + RowCount(b)
  {
    if b == [] {
      assert a + b == a;
    } else {
      RowCountAppend(a, b[..|b| - 1]);
      assert (a + b)[..|a + b| - 1] == a + b[..|b| - 1];
    }
  }

  lemma {:induction false} GroupOfRemaining(events: seq<Buffered>, keys: seq<Key>, key: Key)
    ensures Group(Remaining(events, keys), key) == if key in keys then [] else Group(events, key)
  {
    if events != [] {
      var init, last := events[..|events| - 1], events[|events| - 1];
      GroupOfRemaining(init, keys, key);
      if KeyOf(last) !in keys { GroupSnoc(Remaining(init, keys), last, key); }
    }
  }

  lemma {:induction false} RowsOfFilesFor(events: seq<Buffered>, keys: seq<Key>, base: nat, key: Key)
    requires forall i, j :: 0 <= i < j < |keys| ==> keys[i] != keys[j]
    ensures RowsOf(FilesFor(events, keys, base), key) == if key in keys then Group(events, key) else []
  {
    if keys != [] {
      var n := |keys| - 1;
      RowsOfFilesFor(events, keys[..n], base, key);
      RowsOfSnoc(FilesFor(events, keys[..n], base), File(keys[n], base + |keys|, Group(events, keys[n])), key);
      assert keys == keys[..n] + [keys[n]];
      assert keys[n] !in keys[..n];
    }
  }

  lemma RowsOfSnoc(files: seq<File>, f: File, key: Key)
    ensures RowsOf(files + [f], key) == if f.key == key then RowsOf(files, key) + f.rows else RowsOf(files, key)
  {
    assert (files + [f])[..|files|] == files;
  }

  lemma {:induction false} RowsOfAppend(a: seq<File>, b: seq<File>, key: Key)
    ensures RowsOf(a + b, key) == RowsOf(a, key) + RowsOf(b, key)
  {
    if b == [] {
      assert a + b == a;
    } else {
      RowsOfAppend(a, b[..|b| - 1], key);
      assert (a + b)[..|a + b| - 1] == a + b[..|b| - 1];
    }
  }

  lemma {:induction false} SubsequenceTransitive(a: seq<Buffered>, b: seq<Buffered>, c: seq<Buffered>)
    requires Subsequence(a, b) && Subsequence(b, c)
    ensures Subsequence(a, c)
    decreases |b| + |c|
  {
    if a != [] {
      var b', c' := b[..|b| - 1], c[..|c| - 1];
      if Subsequence(b, c') {
        SubsequenceTransitive(a, b, c');
      } else if Subsequence(a, b') {
        SubsequenceTransitive(a, b', c');
      } else {
        SubsequenceTransitive(a[..|a| - 1], b', c');
      }
    }
  }

  lemma SubsequenceSnoc(a: seq<Buffered>, b: seq<Buffered>, e: Buffered)
    requires Subsequence(a, b)
    ensures Subsequence(a + [e], b + [e])
  {
    assert (a + [e])[..|a|] == a && (b + [e])[..|b|] == b;
  }

  lemma {:induction false} RemainingIsSubsequence(events: seq<Buffered>, keys: seq<Key>)
    ensures Subsequence(Remaining(events, keys), events)
  {
    if events != [] {
      var init, last := events[..|events| - 1], events[|events| - 1];
      RemainingIsSubsequence(init, keys);
      assert events == init + [last];
      if KeyOf(last) !in keys {
        SubsequenceSnoc(Remaining(init, keys), init, last);
      }
    }
  }

  lemma {:induction false} RemainingMembers(events: seq<Buffered>, keys: seq<Key>)
    ensures forall e :: e in Remaining(events, keys) <==> e in events && KeyOf(e) !in keys
  {
    if events != [] {
      RemainingMembers(events[..|events| - 1], keys);
      assert events == events[..|events| - 1] + [events[|events| - 1]];
    }
  }

  // ----- the writer

  datatype Metrics = Metrics(filesWritten: nat, rowsWritten: nat, flushFailures: nat)

  /** Each file is one non-empty partition, and sequence numbers never repeat. */
  ghost predicate FilesSound(files: seq<File>, sequence: nat) {
    && (forall i :: 0 <= i < |files| ==> files[i].rows != [] && 0 < files[i].sequence <= sequence)
    && (forall i, e :: 0 <= i < |files| && e in files[i].rows ==> KeyOf(e) == files[i].key)
    && (forall i, j :: 0 <= i < j < |files| ==> files[i].sequence < files[j].sequence)
  }

  /** Per symbol and hour, what was published followed by what still waits is what was added. */
  ghost predicate ExactlyOnce(added: seq<Buffered>, files: seq<File>, buffer: seq<Buffered>) {
    forall key :: KeyExact(added, files, buffer, key)
  }

  ghost predicate KeyExact(added: seq<Buffered>, files: seq<File>, buffer: seq<Buffered>, key: Key) {
    RowsOf(files, key) + Group(buffer, key) == Group(added, key)
  }

  lemma {:induction false} FilesForSound(events: seq<Buffered>, keys: seq<Key>, base: nat)
    requires forall k :: k in keys ==> k in KeysOf(events)
    ensures FilesSound(FilesFor(events, keys, base), base + |keys|)
    ensures |FilesFor(events, keys, base)| == |keys|
    ensures forall i :: 0 <= i < |keys| ==> FilesFor(events, keys, base)[i].sequence > base
  {
    if keys != [] {
      var n := |keys| - 1;
      assert keys == keys[..n] + [keys[n]];
      FilesForSound(events, keys[..n], base);
      GroupMembers(events, keys[n]);
      KeysOfMembers(events);
      assert keys[n] in KeysOf(events);
      var e :| e in events && KeyOf(e) == keys[n];
      assert e in Group(events, keys[n]);
    }
  }

  lemma FilesSoundAppend(a: seq<File>, b: seq<File>, base: nat, sequence: nat)
    requires FilesSound(a, base) && FilesSound(b, sequence) && base <= sequence
    requires forall i :: 0 <= i < |b| ==> b[i].sequence > base
    ensures FilesSound(a + b, sequence)
  {
  }

  lemma PublishingKeepsExactlyOnce(added: seq<Buffered>, files: seq<File>, buffer: seq<Buffered>, keys: seq<Key>, base: nat)
    requires ExactlyOnce(added, files, buffer)
    requires forall i, j :: 0 <= i < j < |keys| ==> keys[i] != keys[j]
    ensures ExactlyOnce(added, files + FilesFor(buffer, keys, base), Remaining(buffer, keys))
  {
    var more, rest := files + FilesFor(buffer, keys, base), Remaining(buffer, keys);
    forall key ensures KeyExact(added, more, rest, key) {
      assert KeyExact(added, files, buffer, key);
      RowsOfAppend(files, FilesFor(buffer, keys, base), key);
      RowsOfFilesFor(buffer, keys, base, key);
      GroupOfRemaining(buffer, keys, key);
      if key in keys {
        assert RowsOf(files, key) + Group(buffer, key) + [] == RowsOf(files, key) + Group(buffer, key);
      } else {
        assert RowsOf(files, key) + [] + Group(buffer, key) == RowsOf(files, key) + Group(buffer, key);
      }
    }
  }

  ghost predicate Sound(added: seq<Buffered>, files: seq<File>, buffer: seq<Buffered>, sequence: nat, metrics: Metrics) {
    && ExactlyOnce(added, files, buffer)
    && Subsequence(buffer, added)
    && FilesSound(files, sequence)
    && Identified(buffer)
    && metrics.filesWritten == |files| && metrics.rowsWritten == RowCount(files)
  }

  lemma AddingKeepsExactlyOnce(added: seq<Buffered>, files: seq<File>, buffer: seq<Buffered>, e: Buffered)
    requires ExactlyOnce(added, files, buffer)
    ensures ExactlyOnce(added + [e], files, buffer + [e])
  {
    var more, waiting := added + [e], buffer + [e];
    forall key ensures KeyExact(more, files, waiting, key) {
      assert KeyExact(added, files, buffer, key);
      AddingKeepsKey(added, files, buffer, e, key);
    }
  }

  lemma AddingKeepsKey(added: seq<Buffered>, files: seq<File>, buffer: seq<Buffered>, e: Buffered, key: Key)
    requires KeyExact(added, files, buffer, key)
    ensures KeyExact(added + [e], files, buffer + [e], key)
  {
    GroupSnoc(buffer, e, key);
    GroupSnoc(added, e, key);
    PlusAssociates(RowsOf(files, key), Group(buffer, key), [e]);
  }

  function Identities(events: seq<Buffered>): set<nat> { set e | e in events :: e.identity }

  class ParquetWriter {
    const flushMaxRows: int
    const flushMaxSeconds: int
    var buffer: seq<Buffered>
    var sequence: nat
    var metrics: Metrics
    var lastFlush: int
    var published: seq<File>

    ghost var added: seq<Buffered>

    ghost predicate Valid()
      reads this
    {
      Sound(added, published, buffer, sequence, metrics) == true
    }

    constructor (flushMaxRows: int, flushMaxSeconds: int, now: int)
      ensures Valid() && added == [] && published == [] && buffer == [] && metrics.flushFailures == 0
      ensures this.flushMaxRows == flushMaxRows && this.flushMaxSeconds == flushMaxSeconds
    {
      this.flushMaxRows, this.flushMaxSeconds := flushMaxRows, flushMaxSeconds;
      buffer, sequence, metrics, lastFlush := [], 0, Metrics(0, 0, 0), now;
      published, added := [], [];
    }

    predicate ShouldFlush(now: int)
      reads this
    {
      if |buffer| >= flushMaxRows then true
      else now - lastFlush >= flushMaxSeconds && |buffer| > 0
    }

    method Add(e: Buffered, now: int, fault: Fault) returns (r: FlushResult)
      requires Valid()
      requires forall b :: b in buffer && b.identity == e.identity ==> b == e
      modifies this
      ensures Valid() && added == old(added) + [e]
      ensures var waiting := old(buffer) + [e];
              var due := |waiting| >= flushMaxRows || now - old(lastFlush) >= flushMaxSeconds;
              if due then
                && FlushOutcome(waiting, old(published), old(sequence), fault, published, buffer)
                && FlushReport(waiting, fault, now, old(lastFlush), old(metrics), r, buffer, lastFlush, metrics)
              else
                && buffer == waiting && published == old(published) && r == Flushed(0)
                && metrics == old(metrics) && lastFlush == old(lastFlush) && sequence == old(sequence)
    {
      AddingKeepsExactlyOnce(added, published, buffer, e);
      SubsequenceSnoc(buffer, added, e);
      buffer := buffer + [e];
      added := added + [e];
      r := Flushed(0);
      if ShouldFlush(now) { r := Flush(now, fault); }
    }

    /** Groups the pending events by symbol and hour, in first-seen order. */
    method PartitionEvents(pending: seq<Buffered>) returns (order: seq<Key>, partitions: map<Key, seq<Buffered>>)
      ensures order == KeysOf(pending)
      ensures forall k :: k in partitions <==> k in order
      ensures forall k :: k in partitions ==> partitions[k] == Group(pending, k)
    {
      order, partitions := [], map[];
      for i := 0 to |pending|
        invariant order == KeysOf(pending[..i])
        invariant forall k :: k in partitions <==> k in order
        invariant forall k :: k in partitions ==> partitions[k] == Group(pending[..i], k)
      {
        var k := KeyOf(pending[i]);
        assert pending[..i + 1] == pending[..i] + [pending[i]];
        forall key ensures Group(pending[..i + 1], key) == if k == key then Group(pending[..i], key) + [pending[i]] else Group(pending[..i], key) {
          GroupSnoc(pending[..i], pending[i], key);
        }
        if k !in partitions {
          FirstOfItsKey(pending[..i], k);
          partitions := partitions[k := []];
          order := order + [k];
        }
        partitions := partitions[k := partitions[k] + [pending[i]]];
      }
      assert pending[..|pending|] == pending;
    }

    /** The pending events whose identity was not published, in their order. */
    method Unpublished(pending: seq<Buffered>, ids: set<nat>, ghost keys: seq<Key>) returns (out: seq<Buffered>)
      requires forall e :: e in pending ==> (e.identity in ids <==> KeyOf(e) in keys)
      ensures out == Remaining(pending, keys)
    {
      out := [];
      for i := 0 to |pending|
        invariant out == Remaining(pending[..i], keys)
      {
        assert pending[..i + 1][..i] == pending[..i] && pending[i] in pending;
        if pending[i].identity !in ids { out := out + [pending[i]]; }
      }
      assert pending[..|pending|] == pending;
    }

    /** One part file is in place and counted. */
    method Finalise(key: Key, events: seq<Buffered>)
      modifies this`metrics, this`published
      ensures published == old(published) + [File(key, sequence, events)]
      ensures metrics == old(metrics).(filesWritten := old(metrics).filesWritten + 1, rowsWritten := old(metrics).rowsWritten + |events|)
    {
      published := published + [File(key, sequence, events)];
      metrics := metrics.(filesWritten := metrics.filesWritten + 1, rowsWritten := metrics.rowsWritten + |events|);
    }

    /** Publishes partition after partition until done or until the fault strikes. */
    method PublishPartitions(pending: seq<Buffered>, order: seq<Key>, partitions: map<Key, seq<Buffered>>, fault: Fault)
      returns (done: nat, rows: nat, ids: set<nat>)
      requires order == KeysOf(pending) && Identified(pending) && !fault.HookRaises?
      requires forall k :: k in order ==> k in partitions && partitions[k] == Group(pending, k)
      modifies this`sequence, this`metrics, this`published
      ensures done == PublishedCount(fault, |order|) && old(sequence) + done <= sequence
      ensures Published(pending, order, old(sequence), old(published), old(metrics), done, published, metrics, rows, ids) == true
    {
      done, rows, ids := 0, 0, {};
      ghost var base, files, m := sequence, published, metrics;
      while done < |order|
        invariant done <= PublishedCount(fault, |order|) && sequence == base + done
        invariant Published(pending, order, base, files, m, done, published, metrics, rows, ids) == true
      {
        var key := order[done];
        FaultStrikes(fault, done, |order|);
        if fault == MkdirFails(done) { return; }
        sequence := sequence + 1;
        if fault == WriteFails(done) || fault == ReplaceFails(done) { return; }
        var events := partitions[key];
        assert events == Group(pending, key) && sequence == base + done + 1;
        PublishOne(pending, order, base, files, m, done, published, metrics, rows, ids);
        Finalise(key, events);
        rows := rows + |events|;
        ids := ids + Identities(events);
        assert Published(pending, order, base, files, m, done + 1, published, metrics, rows, ids) == true;
        done := done + 1;
      }
    }

    /** The failure handler: what was not published goes back in front of the buffer. */
    method Requeue(pending: seq<Buffered>, ids: set<nat>, ghost base: nat, ghost rows: nat, ghost keys: seq<Key>)
      requires Counted(pending, keys, base, rows, ids)
      modifies this`buffer, this`metrics
      ensures buffer == Remaining(pending, keys) + old(buffer)
      ensures metrics == old(metrics).(flushFailures := old(metrics).flushFailures + 1)
    {
      var unpublished := Unpublished(pending, ids, keys);
      buffer := unpublished + buffer;
      metrics := metrics.(flushFailures := metrics.flushFailures + 1);
    }

    /** Publishes what waits, and puts back what a failure left unpublished. */
    method FlushPending(fault: Fault) returns (ok: bool, rows: nat)
      requires Valid() && !fault.HookRaises?
      modifies this
      ensures Valid() && added == old(added) && lastFlush == old(lastFlush)
      // written as an equation so that the solver carries it as one fact
      ensures FlushOutcome(old(buffer), old(published), old(sequence), fault, published, buffer) == true
      ensures ok <==> PublishedCount(fault, |KeysOf(old(buffer))|) == |KeysOf(old(buffer))|
      ensures ok ==> buffer == [] && rows == |old(buffer)|
      ensures metrics.flushFailures == old(metrics).flushFailures + if ok then 0 else 1
    {
      var pending := buffer;
      ghost var base, files, m := sequence, published, metrics;
      buffer := [];
      var order, partitions := PartitionEvents(pending);
      var done, ids;
      done, rows, ids := PublishPartitions(pending, order, partitions, fault);
      assert added == old(added) && lastFlush == old(lastFlush);
      FlushFacts(added, files, pending, m, base, fault, done, sequence, published, metrics, rows, ids);
      if done < |order| {
        ghost var m' := metrics;
        Requeue(pending, ids, base, rows, order[..done]);
        assert buffer == Remaining(pending, order[..done]);
        assert metrics == m'.(flushFailures := m'.flushFailures + 1);
        assert Sound(added, published, buffer, sequence, metrics) == true;
        return false, rows;
      }
      assert buffer == Remaining(pending, order[..done]);
      assert Sound(added, published, buffer, sequence, metrics) == true;
      return true, rows;
    }

    method Flush(now: int, fault: Fault) returns (r: FlushResult)
      requires Valid()
      modifies this
      ensures Valid() && added == old(added)
      ensures FlushOutcome(old(buffer), old(published), old(sequence), fault, published, buffer) == true
      ensures FlushReport(old(buffer), fault, now, old(lastFlush), old(metrics), r, buffer, lastFlush, metrics)
    {
      if buffer == [] {
        NothingPublished(buffer, published, sequence, fault);
        lastFlush := now;
        return Flushed(0);
      }
      if fault.HookRaises? {
        NothingPublished(buffer, published, sequence, fault);
        return Raised;
      }
      var ok, rows := FlushPending(fault);
      if !ok { return Raised; }
      lastFlush := now;
      return Flushed(rows);
    }
  }

  /** How a flush ends: when it raises, how many rows it reports, the flush clock and the failure count. */
  ghost predicate FlushReport(pending: seq<Buffered>, fault: Fault, now: int, lastFlush: int, m: Metrics,
                              r: FlushResult, buffer': seq<Buffered>, lastFlush': int, m': Metrics)
  {
    && (r.Raised? <==> pending != [] && Fails(fault, |KeysOf(pending)|))
    && (r.Flushed? ==> buffer' == [] && r.rows == |pending| && lastFlush' == now)
    && (r.Raised? ==> lastFlush' == lastFlush)
    && m'.flushFailures == m.flushFailures + if r.Raised? && !fault.HookRaises? then 1 else 0
  }

  /** Without a fault a flush succeeds and reports every waiting event. */
  lemma FaultlessFlushSucceeds(pending: seq<Buffered>, now: int, lastFlush: int, m: Metrics,
                               r: FlushResult, buffer': seq<Buffered>, lastFlush': int, m': Metrics)
    requires FlushReport(pending, NoFault, now, lastFlush, m, r, buffer', lastFlush', m')
    ensures r == Flushed(|pending|) && buffer' == [] && lastFlush' == now && m'.flushFailures == m.flushFailures
  {
  }

  lemma NothingPublished(buffer: seq<Buffered>, files: seq<File>, sequence: nat, fault: Fault)
    requires buffer == [] || fault.HookRaises?
    ensures FlushOutcome(buffer, files, sequence, fault, files, buffer)
  {
    var keys := KeysOf(buffer);
    assert keys[..PublishedCount(fault, |keys|)] == [];
    NothingRemoved(buffer);
    assert files + [] == files;
  }

  /** The first partitions are on disk, counted, and their identities noted. */
  ghost predicate Published(pending: seq<Buffered>, order: seq<Key>, base: nat, files: seq<File>, m: Metrics,
                            done: nat, files': seq<File>, m': Metrics, rows: nat, ids: set<nat>)
  {
    && done <= |order|
    && files' == files + FilesFor(pending, order[..done], base)
    && m' == m.(filesWritten := m.filesWritten + done, rowsWritten := m.rowsWritten + rows)
    && Counted(pending, order[..done], base, rows, ids)
  }

  lemma FaultStrikes(fault: Fault, done: nat, n: nat)
    requires !fault.HookRaises? && done < n && done <= PublishedCount(fault, n)
    ensures fault == MkdirFails(done) || fault == WriteFails(done) || fault == ReplaceFails(done) <==> done == PublishedCount(fault, n)
  {
  }

  lemma PublishOne(pending: seq<Buffered>, order: seq<Key>, base: nat, files: seq<File>, m: Metrics,
                   done: nat, files': seq<File>, m': Metrics, rows: nat, ids: set<nat>)
    requires Published(pending, order, base, files, m, done, files', m', rows, ids) && done < |order| && Identified(pending)
    ensures var events := Group(pending, order[done]);
            Published(pending, order, base, files, m, done + 1, files' + [File(order[done], base + done + 1, events)],
                      m'.(filesWritten := m'.filesWritten + 1, rowsWritten := m'.rowsWritten + |events|),
                      rows + |events|, ids + Identities(events)) == true
  {
    CountOne(pending, order, done, base, rows, ids);
    var f := File(order[done], base + done + 1, Group(pending, order[done]));
    assert files + (FilesFor(pending, order[..done], base) + [f]) == files' + [f];
  }

  /** Everything a flush needs to know once its publishing loop has ended. */
  lemma FlushFacts(added: seq<Buffered>, files: seq<File>, pending: seq<Buffered>, m: Metrics, base: nat, fault: Fault, done: nat,
                   sequence: nat, files': seq<File>, m': Metrics, rows: nat, ids: set<nat>)
    requires Sound(added, files, pending, base, m) && !fault.HookRaises?
    requires done == PublishedCount(fault, |KeysOf(pending)|) && base + done <= sequence
    requires Published(pending, KeysOf(pending), base, files, m, done, files', m', rows, ids)
    ensures var keys := KeysOf(pending)[..done];
            && Sound(added, files', Remaining(pending, keys), sequence, m')
            && Sound(added, files', Remaining(pending, keys), sequence, m'.(flushFailures := m'.flushFailures + 1))
            && FlushOutcome(pending, files, base, fault, files', Remaining(pending, keys))
            && Counted(pending, keys, base, rows, ids)
            && (done == |KeysOf(pending)| ==> Remaining(pending, keys) == [] && rows == |pending|)
  {
    var keys := KeysOf(pending)[..done];
    FlushKeepsSound(added, files, pending, m, keys, base, sequence, rows);
    if done == |KeysOf(pending)| {
      assert keys == KeysOf(pending);
      KeysOfMembers(pending);
      RowsBalance(pending, keys, base);
      AllRemoved(pending);
    }
  }

  /** What a flush leaves behind: the files of the first partitions, and the events of the others. */
  ghost predicate FlushOutcome(buffer: seq<Buffered>, published: seq<File>, sequence: nat, fault: Fault,
                               published': seq<File>, buffer': seq<Buffered>)
  {
    var keys := KeysOf(buffer);
    var done := keys[..PublishedCount(fault, |keys|)];
    && published' == published + FilesFor(buffer, done, sequence)
    && buffer' == Remaining(buffer, done)
  }

  /** The row total and the identities of what the partitions so far contain. */
  ghost predicate Counted(pending: seq<Buffered>, keys: seq<Key>, base: nat, rows: nat, ids: set<nat>) {
    && rows == RowCount(FilesFor(pending, keys, base))
    && forall e :: e in pending ==> (e.identity in ids <==> KeyOf(e) in keys)
  }

  lemma CountOne(pending: seq<Buffered>, order: seq<Key>, n: nat, base: nat, rows: nat, ids: set<nat>)
    requires n < |order| && Identified(pending) && Counted(pending, order[..n], base, rows, ids)
    ensures var events := Group(pending, order[n]);
            && FilesFor(pending, order[..n + 1], base) == FilesFor(pending, order[..n], base) + [File(order[n], base + n + 1, events)]
            && Counted(pending, order[..n + 1], base, rows + |events|, ids + Identities(events))
  {
    assert order[..n + 1][..n] == order[..n];
    var files := FilesFor(pending, order[..n], base);
    assert (files + [File(order[n], base + n + 1, Group(pending, order[n]))])[..|files|] == files;
    PublishedIds(pending, order, n, ids, Group(pending, order[n]));
  }

  lemma PublishedIds(pending: seq<Buffered>, order: seq<Key>, n: nat, ids: set<nat>, events: seq<Buffered>)
    requires n < |order| && Identified(pending) && events == Group(pending, order[n])
    requires forall e :: e in pending ==> (e.identity in ids <==> KeyOf(e) in order[..n])
    ensures var more := ids + Identities(events);
            forall e :: e in pending ==> (e.identity in more <==> KeyOf(e) in order[..n + 1])
  {
    GroupMembers(pending, order[n]);
    var more := ids + Identities(events);
    assert order[..n + 1] == order[..n] + [order[n]];
    forall e | e in pending ensures e.identity in more <==> KeyOf(e) in order[..n + 1] {
      if KeyOf(e) == order[n] { assert e in events; }
      if e.identity in more && e.identity !in ids {
        var twin :| twin in events && twin.identity == e.identity;
        assert twin in pending && twin == e;
      }
    }
  }

  lemma RemainingIsIdentified(buffer: seq<Buffered>, keys: seq<Key>)
    requires Identified(buffer)
    ensures Identified(Remaining(buffer, keys))
  {
    RemainingMembers(buffer, keys);
    var r := Remaining(buffer, keys);
    forall i, j | 0 <= i < |r| && 0 <= j < |r| && r[i].identity == r[j].identity ensures r[i] == r[j] {
      assert r[i] in r && r[j] in r;
      assert r[i] in buffer && r[j] in buffer;
    }
  }

  lemma FlushKeepsFilesSound(files: seq<File>, buffer: seq<Buffered>, keys: seq<Key>, base: nat, sequence: nat)
    requires FilesSound(files, base) && keys <= KeysOf(buffer) && base + |keys| <= sequence
    ensures FilesSound(files + FilesFor(buffer, keys, base), sequence)
    ensures |FilesFor(buffer, keys, base)| == |keys|
  {
    assert forall k :: k in keys ==> k in KeysOf(buffer);
    FilesForSound(buffer, keys, base);
    FilesSoundAppend(files, FilesFor(buffer, keys, base), base, sequence);
  }

  /** Publishing the first partitions and keeping the rest preserves the whole invariant. */
  lemma FlushKeepsSound(added: seq<Buffered>, files: seq<File>, buffer: seq<Buffered>, m: Metrics, keys: seq<Key>,
                        base: nat, sequence: nat, rows: nat)
    requires Sound(added, files, buffer, base, m)
    requires keys <= KeysOf(buffer) && base + |keys| <= sequence && rows == RowCount(FilesFor(buffer, keys, base))
    ensures Sound(added, files + FilesFor(buffer, keys, base), Remaining(buffer, keys), sequence,
                  m.(filesWritten := m.filesWritten + |keys|, rowsWritten := m.rowsWritten + rows))
  {
    KeysOfMembers(buffer);
    PublishingKeepsExactlyOnce(added, files, buffer, keys, base);
    RemainingIsSubsequence(buffer, keys);
    SubsequenceTransitive(Remaining(buffer, keys), buffer, added);
    RemainingIsIdentified(buffer, keys);
    FlushKeepsFilesSound(files, buffer, keys, base, sequence);
    RowCountAppend(files, FilesFor(buffer, keys, base));
  }

  // ----- nothing lost, nothing duplicated

  lemma {:induction false} GroupMultiplicity(events: seq<Buffered>, e: Buffered)
    ensures multiset(Group(events, KeyOf(e)))[e] == multiset(events)[e]
  {
    if events != [] {
      GroupMultiplicity(events[..|events| - 1], e);
      assert events == events[..|events| - 1] + [events[|events| - 1]];
    }
  }

  function AllRows(files: seq<File>): seq<Buffered> {
    if files == [] then [] else AllRows(files[..|files| - 1]) + files[|files| - 1].rows
  }

  lemma {:induction false} RowsMultiplicity(files: seq<File>, sequence: nat, e: Buffered)
    requires FilesSound(files, sequence)
    ensures multiset(RowsOf(files, KeyOf(e)))[e] == multiset(AllRows(files))[e]
  {
    if files != [] {
      var n := |files| - 1;
      RowsMultiplicity(files[..n], sequence, e);
      if files[n].key != KeyOf(e) {
        assert e !in files[n].rows;
      }
    }
  }

  /** After any sequence of calls under any failures, published rows plus buffered events are exactly the added events. */
  lemma NothingLostOrDuplicated(w: ParquetWriter)
    requires w.Valid()
    ensures multiset(AllRows(w.published)) + multiset(w.buffer) == multiset(w.added)
  {
    forall e ensures (multiset(AllRows(w.published)) + multiset(w.buffer))[e] == multiset(w.added)[e] {
      RowsMultiplicity(w.published, w.sequence, e);
      GroupMultiplicity(w.buffer, e);
      GroupMultiplicity(w.added, e);
      assert KeyExact(w.added, w.published, w.buffer, KeyOf(e));
    }
  }

  lemma {:induction false} AllRowsCounted(files: seq<File>)
    ensures |AllRows(files)| == RowCount(files)
  {
    if files != [] { AllRowsCounted(files[..|files| - 1]); }
  }

  /** The row metric counts the rows on disk: everything added except what still waits. */
  lemma RowMetricIsExact(w: ParquetWriter)
    requires w.Valid()
    ensures w.metrics.rowsWritten == |AllRows(w.published)| == |w.added| - |w.buffer|
  {
    NothingLostOrDuplicated(w);
    AllRowsCounted(w.published);
    assert |multiset(AllRows(w.published)) + multiset(w.buffer)| == |AllRows(w.published)| + |w.buffer|;
    assert |multiset(w.added)| == |w.added|;
  }

  // ----- one symbol and one hour per file, read from the rows

  ghost predicate InHour(e: Buffered, h: int) { h * 3_600_000 <= e.event.tick.recv < (h + 1) * 3_600_000 }

  ghost predicate SameSymbolAndHour(a: Buffered, b: Buffered) {
    a.event.tick.symbol == b.event.tick.symbol && exists h :: InHour(a, h) && InHour(b, h)
  }

  lemma KeyIsSymbolAndHour(a: Buffered, b: Buffered)
    ensures KeyOf(a).symbol == a.event.tick.symbol && InHour(a, KeyOf(a).hour)
    ensures KeyOf(a) == KeyOf(b) <==> SameSymbolAndHour(a, b)
  {
    if KeyOf(a) == KeyOf(b) {
      assert InHour(a, KeyOf(a).hour) && InHour(b, KeyOf(a).hour);
    }
    if h :| InHour(a, h) && InHour(b, h) {
      assert KeyOf(a).hour == h && KeyOf(b).hour == h;
    }
  }

  /** In every valid writer the rows of a file share the symbol and the hour the file is labelled with. */
  lemma FilesHoldOneHour(w: ParquetWriter, i: nat, a: Buffered, b: Buffered)
    requires w.Valid() && i < |w.published| && a in w.published[i].rows && b in w.published[i].rows
    ensures SameSymbolAndHour(a, b)
    ensures w.published[i].key.symbol == a.event.tick.symbol && InHour(a, w.published[i].key.hour)
  {
    KeyIsSymbolAndHour(a, b);
  }

  lemma {:induction false} FilesForAt(events: seq<Buffered>, keys: seq<Key>, base: nat, i: nat)
    requires i < |keys|
    ensures |FilesFor(events, keys, base)| == |keys|
    ensures FilesFor(events, keys, base)[i] == File(keys[i], base + i + 1, Group(events, keys[i]))
  {
    var n := |keys| - 1;
    FilesForLength(events, keys[..n], base);
    if i < n { FilesForAt(events, keys[..n], base, i); }
  }

  /** Of the rows that one flush publishes, two share a file exactly when they share symbol and hour. */
  lemma FlushSeparatesExactly(buffer: seq<Buffered>, files: seq<File>, sequence: nat, fault: Fault, files': seq<File>, rest: seq<Buffered>,
                              i: nat, j: nat, a: Buffered, b: Buffered)
    requires FlushOutcome(buffer, files, sequence, fault, files', rest)
    requires |files| <= i < |files'| && |files| <= j < |files'| && a in files'[i].rows && b in files'[j].rows
    ensures a in buffer && b in buffer && (SameSymbolAndHour(a, b) <==> i == j)
  {
    var keys := KeysOf(buffer);
    var done := keys[..PublishedCount(fault, |keys|)];
    KeysOfMembers(buffer);
    FilesForLength(buffer, done, sequence);
    FilesForAt(buffer, done, sequence, i - |files|);
    FilesForAt(buffer, done, sequence, j - |files|);
    GroupMembers(buffer, done[i - |files|]);
    GroupMembers(buffer, done[j - |files|]);
    KeyIsSymbolAndHour(a, b);
  }

  /** What a flush leaves in the buffer shares no symbol and hour with what it publishes. */
  lemma FlushKeepsHoursWhole(buffer: seq<Buffered>, files: seq<File>, sequence: nat, fault: Fault, files': seq<File>, rest: seq<Buffered>,
                             i: nat, a: Buffered, b: Buffered)
    requires FlushOutcome(buffer, files, sequence, fault, files', rest)
    requires |files| <= i < |files'| && a in files'[i].rows && b in rest
    ensures !SameSymbolAndHour(a, b)
  {
    var keys := KeysOf(buffer);
    var done := keys[..PublishedCount(fault, |keys|)];
    FilesForLength(buffer, done, sequence);
    FilesForAt(buffer, done, sequence, i - |files|);
    GroupMembers(buffer, done[i - |files|]);
    RemainingMembers(buffer, done);
    KeyIsSymbolAndHour(a, b);
  }
}
