/**
 The row-to-document transfer of `push_to_firestore` (main.py:46-87).

 Each row with a truthy id-field value becomes one write: its document id is
 the sanitised id, its payload the row without the id field. Writes are staged
 into a batch; every time the number of staged writes reaches a multiple of
 500 the batch is committed and a fresh one started, and a non-empty last batch
 is committed at the end. Rows without a usable id are skipped and do not
 advance the count.

 The result of each commit is given by `outcome`, indexed by commit number. A
 commit succeeds (`Ok`); or it fails with the store's API error, which is
 caught and logged so the loop carries on (`Caught`); or it fails with any other
 exception, which nothing catches (`Raised`). A raised exception ends the run:
 the open batch and every later row are never written.
 */
module Transfer {
  import opened Wrappers
  import opened Values
  import opened Ids
  import opened Chunking

  /** A warehouse row: column name to value. */
  type Row = map<string, Value>

  /** A staged `set` of a whole document. */
  datatype Write = Write(collection: string, docId: string, payload: Row)

  /** How a `batch.commit()` ends (main.py:74-79, 83-87): it succeeds, it
      raises the store's API error and that is caught and logged, or it raises
      any other exception, which propagates out of the transfer. */
  datatype CommitResult = Ok | Caught | Raised

  /** An attempted commit of a batch and how it ended. */
  datatype Commit = Commit(writes: seq<Write>, result: CommitResult)

  /** How the commit with the given number (from 0) ends. */
  type CommitOutcomes = nat -> CommitResult

  /** No commit ever raises an uncaught exception. */
  ghost predicate NeverRaises(outcome: CommitOutcomes) {
    forall j: nat :: outcome(j) != Raised
  }

  /** `dict.get`: the value of a column, or nothing when it is absent. */
  function Lookup(row: Row, field: string): (o: Option<Value>)
    ensures o.Some? <==> field in row
    ensures o.Some? ==> o.value == row[field]
  {
    if field in row then Some(row[field]) else None
  }

  /** The row carries a usable id: present and truthy (main.py:57-58). */
  predicate HasKey(row: Row, idField: string) {
    match Lookup(row, idField)
    case None => false
    case Some(v) => !Falsy(v)
  }

  /** The payload: the row with the id field removed (main.py:56, 66). */
  function StripId(row: Row, idField: string): (payload: Row)
    ensures idField !in payload
    ensures payload.Keys == row.Keys - {idField}
    ensures forall k :: k in payload ==> payload[k] == row[k]
  {
    row - {idField}
  }

  /** The write one row stages, if any (main.py:55-69). An id that sanitises
      to the empty string is still staged. */
  function Stage(row: Row, collection: string, idField: string): (w: Option<Write>)
    ensures w.None? <==> !HasKey(row, idField)
    ensures w.Some? ==> w.value.collection == collection
    ensures w.Some? ==> w.value.docId == DocumentId(row[idField])
    ensures w.Some? ==> AllAlnum(w.value.docId)
    ensures w.Some? ==> w.value.payload == StripId(row, idField)
  {
    match Lookup(row, idField)
    case None => None
    case Some(key) =>
      if Falsy(key) then None
      else Some(Write(collection, DocumentId(key), StripId(row, idField)))
  }

  function StageList(row: Row, collection: string, idField: string): seq<Write> {
    match Stage(row, collection, idField)
    case None => []
    case Some(w) => [w]
  }

  /** All writes staged from `rows`, in row order. */
  function StagedWrites(rows: seq<Row>, collection: string, idField: string): (ws: seq<Write>)
    ensures |ws| <= |rows|
    ensures forall i :: 0 <= i < |ws| ==>
              && ws[i].collection == collection
              && AllAlnum(ws[i].docId)
              && idField !in ws[i].payload
    decreases |rows|
  {
    if |rows| == 0 then []
    else StagedWrites(rows[..|rows| - 1], collection, idField)
         + StageList(rows[|rows| - 1], collection, idField)
  }

  /** How many rows carry a usable id. */
  function KeyedCount(rows: seq<Row>, idField: string): nat
    decreases |rows|
  {
    if |rows| == 0 then 0
    else KeyedCount(rows[..|rows| - 1], idField) + (if HasKey(rows[|rows| - 1], idField) then 1 else 0)
  }

  // ---------------------------------------------------------------------------
  // The loop of push_to_firestore as a fold over the rows

  /** The loop's variables: `count`, the open `batch`, and the commits attempted so far. */
  datatype PushState = PushState(count: nat, batch: seq<Write>, commits: seq<Commit>)

  /** The last commit raised: the exception has left the loop, and no later
      row is processed. */
  predicate Halted(st: PushState) {
    |st.commits| > 0 && st.commits[|st.commits| - 1].result == Raised
  }

  /** `batch.commit()` followed by `batch = db.batch()` (main.py:74-79). */
  function CommitBatch(st: PushState, outcome: CommitOutcomes): PushState {
    PushState(st.count, [], st.commits + [Commit(st.batch, outcome(|st.commits|))])
  }

  /** Staging one write, then committing when the count reaches a multiple of
      the batch size (main.py:69-79). */
  function Append(st: PushState, w: Write, outcome: CommitOutcomes): PushState {
    var staged := PushState(st.count + 1, st.batch + [w], st.commits);
    if staged.count % BatchSize == 0 then CommitBatch(staged, outcome) else staged
  }

  /** One iteration of the loop over rows (main.py:55-79). */
  function Step(st: PushState, row: Row, collection: string, idField: string, outcome: CommitOutcomes): PushState {
    if Halted(st) then st
    else
      match Stage(row, collection, idField)
      case None => st
      case Some(w) => Append(st, w, outcome)
  }

  /** The loop state after processing all of `rows`. */
  function Run(rows: seq<Row>, collection: string, idField: string, outcome: CommitOutcomes): PushState
    decreases |rows|
  {
    if |rows| == 0 then PushState(0, [], [])
    else Step(Run(rows[..|rows| - 1], collection, idField, outcome), rows[|rows| - 1], collection, idField, outcome)
  }

  /** After the loop: the final partial batch is committed unless an
      exception already ended the run (main.py:81-87). */
  function Finish(st: PushState, outcome: CommitOutcomes): seq<Commit> {
    if !Halted(st) && st.count % BatchSize != 0 then CommitBatch(st, outcome).commits else st.commits
  }

  /** `push_to_firestore`: the commits it attempts, in order (main.py:46-87). */
  function Push(rows: seq<Row>, collection: string, idField: string, outcome: CommitOutcomes): seq<Commit> {
    Finish(Run(rows, collection, idField, outcome), outcome)
  }

  // ---------------------------------------------------------------------------
  // Reference: the staged writes cut into chunks, up to the first raise

  /** The batch of each commit. */
  function Batches(cs: seq<Commit>): (bs: seq<seq<Write>>)
    ensures |bs| == |cs|
  {
    seq(|cs|, j requires 0 <= j < |cs| => cs[j].writes)
  }

  /** The writes of all commits, in commit order. */
  function Written(cs: seq<Commit>): seq<Write> {
    Flatten(Batches(cs))
  }

  /** Chunk `j` of the staged writes, committed with outcome `outcome(j)`. */
  function Committed(staged: seq<Write>, outcome: CommitOutcomes): seq<Commit> {
    var chunks := Chunks(staged);
    seq(|chunks|, j requires 0 <= j < |chunks| => Commit(chunks[j], outcome(j)))
  }

  /** The commits that are reached when each is tried in turn: all of them up
      to and including the first that raises. */
  function Attempted(cs: seq<Commit>): (r: seq<Commit>)
    ensures r <= cs
    ensures forall j :: 0 <= j < |r| - 1 ==> r[j].result != Raised
    ensures |r| < |cs| ==> 0 < |r| && r[|r| - 1].result == Raised
    decreases |cs|
  {
    if |cs| == 0 then []
    else if cs[0].result == Raised then [cs[0]]
    else [cs[0]] + Attempted(cs[1..])
  }

  /** The contract of `Attempted` determines it: a prefix with no raise before
      its last element, which ends at a raise unless it is everything, is the
      attempted prefix. */
  lemma {:induction false} AttemptedUnique(cs: seq<Commit>, k: nat)
    requires k <= |cs|
    requires forall j :: 0 <= j < k - 1 ==> cs[j].result != Raised
    requires k < |cs| ==> 0 < k && cs[k - 1].result == Raised
    ensures Attempted(cs) == cs[..k]
    decreases |cs|
  {
    if |cs| > 0 && cs[0].result != Raised {
      AttemptedUnique(cs[1..], k - 1);
      assert cs[..k] == [cs[0]] + cs[1..][..k - 1];
    }
  }

  lemma CommittedBatches(staged: seq<Write>, outcome: CommitOutcomes)
    ensures Batches(Committed(staged, outcome)) == Chunks(staged)
  {
  }

  /** Commit `j` of `cs` is chunk `j` of `staged`, a full chunk, ending as `outcome(j)`. */
  ghost predicate CommitsMatch(cs: seq<Commit>, staged: seq<Write>, outcome: CommitOutcomes) {
    && BatchSize * |cs| <= |staged|
    && forall j :: 0 <= j < |cs| ==>
         cs[j] == Commit(staged[BatchSize * j .. BatchSize * j + BatchSize], outcome(j))
  }

  /** Staging more writes leaves the full chunks already committed unchanged. */
  lemma CommitsMatchExtend(cs: seq<Commit>, staged: seq<Write>, more: seq<Write>, outcome: CommitOutcomes)
    requires CommitsMatch(cs, staged, outcome)
    ensures CommitsMatch(cs, staged + more, outcome)
  {
    var staged' := staged + more;
    forall j | 0 <= j < |cs|
      ensures staged'[BatchSize * j .. BatchSize * j + BatchSize] == staged[BatchSize * j .. BatchSize * j + BatchSize]
    {
    }
  }

  /** What the loop state knows after staging `staged`: one commit per full
      chunk so far, none of them raising except possibly the last; and while
      no exception has ended the run, the count, and the remainder in the open
      batch. */
  ghost predicate Tracks(st: PushState, staged: seq<Write>, outcome: CommitOutcomes) {
    && CommitsMatch(st.commits, staged, outcome)
    && (forall j :: 0 <= j < |st.commits| - 1 ==> outcome(j) != Raised)
    && (!Halted(st) ==>
          && st.count == |staged|
          && |st.commits| == |staged| / BatchSize
          && st.batch == staged[BatchSize * |st.commits|..])
  }

  lemma AppendTracks(st: PushState, staged: seq<Write>, w: Write, outcome: CommitOutcomes)
    requires Tracks(st, staged, outcome)
    requires !Halted(st)
    ensures Tracks(Append(st, w, outcome), staged + [w], outcome)
  {
    var staged' := staged + [w];
    var k := |st.commits|;
    var next := PushState(st.count + 1, st.batch + [w], st.commits);
    assert next.batch == staged'[BatchSize * k..];
    CommitsMatchExtend(st.commits, staged, [w], outcome);
    if k > 0 {
      assert st.commits[k - 1].result == outcome(k - 1);
    }
    if next.count % BatchSize == 0 {
      var st' := CommitBatch(next, outcome);
      assert |staged'| == BatchSize * (k + 1);
      assert Append(st, w, outcome) == st';
      assert next.batch == staged'[BatchSize * k .. BatchSize * k + BatchSize];
      assert st'.commits[k] == Commit(staged'[BatchSize * k .. BatchSize * k + BatchSize], outcome(k));
    } else {
      assert Append(st, w, outcome) == next;
      assert |staged'| / BatchSize == k;
    }
  }

  /** Once halted, the state stays as it is while more writes would be staged. */
  lemma HaltedTracks(st: PushState, staged: seq<Write>, more: seq<Write>, outcome: CommitOutcomes)
    requires Tracks(st, staged, outcome)
    requires Halted(st)
    ensures Tracks(st, staged + more, outcome)
  {
    CommitsMatchExtend(st.commits, staged, more, outcome);
  }

  /** One loop iteration keeps the loop state in step with the staged writes. */
  lemma StepTracks(st: PushState, staged: seq<Write>, row: Row, collection: string, idField: string, outcome: CommitOutcomes)
    requires Tracks(st, staged, outcome)
    ensures Tracks(Step(st, row, collection, idField, outcome), staged + StageList(row, collection, idField), outcome)
  {
    if Halted(st) {
      HaltedTracks(st, staged, StageList(row, collection, idField), outcome);
    } else {
      match Stage(row, collection, idField)
      case None =>
        assert staged + StageList(row, collection, idField) == staged;
      case Some(w) =>
        AppendTracks(st, staged, w, outcome);
    }
  }

  lemma {:induction false} StagedWritesTracked(rows: seq<Row>, collection: string, idField: string, outcome: CommitOutcomes)
    ensures Tracks(Run(rows, collection, idField, outcome), StagedWrites(rows, collection, idField), outcome)
    decreases |rows|
  {
    if |rows| > 0 {
      var prefix := rows[..|rows| - 1];
      StagedWritesTracked(prefix, collection, idField, outcome);
      StepTracks(Run(prefix, collection, idField, outcome), StagedWrites(prefix, collection, idField),
                 rows[|rows| - 1], collection, idField, outcome);
    }
  }

  /** Finishing a loop state that tracks `staged` attempts exactly the chunks
      of `staged` up to the first raise. */
  lemma FinishTracks(st: PushState, staged: seq<Write>, outcome: CommitOutcomes)
    requires Tracks(st, staged, outcome)
    ensures Finish(st, outcome) == Attempted(Committed(staged, outcome))
  {
    var pushed := Finish(st, outcome);
    var expected := Committed(staged, outcome);
    ChunksCount(staged);
    if Halted(st) {
      FinishedPrefix(st, staged, outcome);
    } else {
      FinishedPrefix(st, staged, outcome);
      if |st.commits| > 0 {
        assert st.commits[|st.commits| - 1].result == outcome(|st.commits| - 1);
      }
      assert |pushed| == |expected|;
    }
    AttemptedUnique(expected, |pushed|);
  }

  /** The commits of a finished tracking state are a prefix of the chunk commits. */
  lemma FinishedPrefix(st: PushState, staged: seq<Write>, outcome: CommitOutcomes)
    requires Tracks(st, staged, outcome)
    ensures Finish(st, outcome) <= Committed(staged, outcome)
  {
    var pushed := Finish(st, outcome);
    var expected := Committed(staged, outcome);
    ChunksCount(staged);
    assert |pushed| <= |expected|;
    forall j | 0 <= j < |pushed|
      ensures pushed[j] == expected[j]
    {
      ChunkAt(staged, j);
    }
  }

  /** The central theorem: the commits `push_to_firestore` attempts are the
      staged writes cut into chunks of 500, in order, commit `j` ending as
      `outcome(j)`, up to and including the first commit that raises. */
  lemma PushCommitsChunks(rows: seq<Row>, collection: string, idField: string, outcome: CommitOutcomes)
    ensures Push(rows, collection, idField, outcome)
         == Attempted(Committed(StagedWrites(rows, collection, idField), outcome))
  {
    StagedWritesTracked(rows, collection, idField, outcome);
    FinishTracks(Run(rows, collection, idField, outcome), StagedWrites(rows, collection, idField), outcome);
  }

  // ---------------------------------------------------------------------------
  // Staging: which rows give writes, and in which order

  lemma {:induction false} StagedWritesConcat(a: seq<Row>, b: seq<Row>, collection: string, idField: string)
    ensures StagedWrites(a + b, collection, idField)
         == StagedWrites(a, collection, idField) + StagedWrites(b, collection, idField)
    decreases |b|
  {
    if |b| == 0 {
      assert a + b == a;
    } else {
      var b' := b[..|b| - 1];
      assert (a + b)[..|a + b| - 1] == a + b';
      assert (a + b)[|a + b| - 1] == b[|b| - 1];
      StagedWritesConcat(a, b', collection, idField);
    }
  }

  /** One write per row with a usable id, and none for any other row. */
  lemma {:induction false} StagedWritesCount(rows: seq<Row>, collection: string, idField: string)
    ensures |StagedWrites(rows, collection, idField)| == KeyedCount(rows, idField)
    decreases |rows|
  {
    if |rows| > 0 {
      StagedWritesCount(rows[..|rows| - 1], collection, idField);
    }
  }

  /** The writes staged from a prefix of the rows are a prefix of all writes. */
  lemma {:induction false} StagedWritesPrefix(rows: seq<Row>, m: nat, collection: string, idField: string)
    requires m <= |rows|
    ensures StagedWrites(rows[..m], collection, idField) <= StagedWrites(rows, collection, idField)
  {
    assert rows == rows[..m] + rows[m..];
    StagedWritesConcat(rows[..m], rows[m..], collection, idField);
  }

  /** Row `i`, when it has a usable id, produces the write at position "number
      of keyed rows before it", carrying its sanitised id and its payload
      without the id field. `KeyedPositionsDistinct` adds that different rows
      get different positions. */
  lemma {:induction false} StagedWritesPosition(rows: seq<Row>, i: nat, collection: string, idField: string)
    requires i < |rows|
    requires HasKey(rows[i], idField)
    ensures KeyedCount(rows[..i], idField) < KeyedCount(rows[..i + 1], idField)
    ensures KeyedCount(rows[..i], idField) < |StagedWrites(rows, collection, idField)|
    ensures StagedWrites(rows, collection, idField)[KeyedCount(rows[..i], idField)]
         == Write(collection, DocumentId(rows[i][idField]), rows[i] - {idField})
  {
    var pre := rows[..i + 1];
    assert pre[..|pre| - 1] == rows[..i];
    StagedWritesCount(rows[..i], collection, idField);
    StagedWritesPrefix(rows, i + 1, collection, idField);
  }

  /** A longer prefix of the rows has at least as many keyed rows. */
  lemma {:induction false} KeyedCountMonotone(rows: seq<Row>, m: nat, n: nat, idField: string)
    requires m <= n <= |rows|
    ensures KeyedCount(rows[..m], idField) <= KeyedCount(rows[..n], idField)
    decreases n
  {
    if m < n {
      assert rows[..n][..n - 1] == rows[..n - 1];
      KeyedCountMonotone(rows, m, n - 1, idField);
    }
  }

  /** An earlier keyed row gets an earlier position than any later row, so no
      row is dropped or duplicated and source order is kept. */
  lemma KeyedPositionsDistinct(rows: seq<Row>, i: nat, i2: nat, idField: string)
    requires i < i2 < |rows|
    requires HasKey(rows[i], idField)
    ensures KeyedCount(rows[..i], idField) < KeyedCount(rows[..i2], idField)
  {
    assert rows[..i + 1][..i] == rows[..i];
    KeyedCountMonotone(rows, i + 1, i2, idField);
  }

  // ---------------------------------------------------------------------------
  // Consequences for the commits

  /** The attempted batches are the first chunks of the staged writes, and all
      of them when no commit raises. */
  lemma PushBatchesAreChunks(rows: seq<Row>, collection: string, idField: string, outcome: CommitOutcomes)
    ensures Batches(Push(rows, collection, idField, outcome)) <= Chunks(StagedWrites(rows, collection, idField))
    ensures NeverRaises(outcome) ==>
              Batches(Push(rows, collection, idField, outcome)) == Chunks(StagedWrites(rows, collection, idField))
  {
    PushCommitsChunks(rows, collection, idField, outcome);
    AttemptedChunks(StagedWrites(rows, collection, idField), outcome);
  }

  lemma AttemptedChunks(staged: seq<Write>, outcome: CommitOutcomes)
    ensures Batches(Attempted(Committed(staged, outcome))) <= Chunks(staged)
    ensures NeverRaises(outcome) ==> Batches(Attempted(Committed(staged, outcome))) == Chunks(staged)
  {
    var expected := Committed(staged, outcome);
    var attempted := Attempted(expected);
    CommittedBatches(staged, outcome);
    assert Batches(attempted) == Batches(expected)[..|attempted|];
    if NeverRaises(outcome) {
      AttemptedUnique(expected, |expected|);
    }
  }

  /** Commit `j` ends as `outcome(j)`, and no commit but the last attempted one
      raises: a commit that raises is the last one attempted. */
  lemma PushOutcomes(rows: seq<Row>, collection: string, idField: string, outcome: CommitOutcomes)
    ensures forall j :: 0 <= j < |Push(rows, collection, idField, outcome)| ==>
              Push(rows, collection, idField, outcome)[j].result == outcome(j)
    ensures forall j :: 0 <= j < |Push(rows, collection, idField, outcome)| - 1 ==>
              Push(rows, collection, idField, outcome)[j].result != Raised
  {
    PushCommitsChunks(rows, collection, idField, outcome);
  }

  lemma AttemptedUpToRaise(staged: seq<Write>, outcome: CommitOutcomes, j: nat)
    requires outcome(j) == Raised
    requires forall i :: 0 <= i < j ==> outcome(i) != Raised
    ensures Batches(Attempted(Committed(staged, outcome))) == Chunks(staged)[..Min(j + 1, |Chunks(staged)|)]
  {
    var expected := Committed(staged, outcome);
    CommittedBatches(staged, outcome);
    var k := Min(j + 1, |expected|);
    AttemptedUnique(expected, k);
    assert Batches(expected[..k]) == Batches(expected)[..k];
  }

  /** When commit `j` is the first to raise, exactly the first `j + 1` chunks
      are attempted: the rest of the staged writes are never committed. */
  lemma RaisedCommitEndsTransfer(rows: seq<Row>, collection: string, idField: string, outcome: CommitOutcomes, j: nat)
    requires outcome(j) == Raised
    requires forall i :: 0 <= i < j ==> outcome(i) != Raised
    ensures Batches(Push(rows, collection, idField, outcome))
         == Chunks(StagedWrites(rows, collection, idField))[..Min(j + 1, |Chunks(StagedWrites(rows, collection, idField))|)]
  {
    PushCommitsChunks(rows, collection, idField, outcome);
    AttemptedUpToRaise(StagedWrites(rows, collection, idField), outcome, j);
  }

  /** Concatenating the attempted batches in commit order gives a prefix of the
      staged writes in row order, and all of them when no commit raises. */
  lemma PushWritesInOrder(rows: seq<Row>, collection: string, idField: string, outcome: CommitOutcomes)
    ensures Written(Push(rows, collection, idField, outcome)) <= StagedWrites(rows, collection, idField)
    ensures NeverRaises(outcome) ==>
              Written(Push(rows, collection, idField, outcome)) == StagedWrites(rows, collection, idField)
  {
    var staged := StagedWrites(rows, collection, idField);
    var pushed := Push(rows, collection, idField, outcome);
    PushBatchesAreChunks(rows, collection, idField, outcome);
    ChunksFlatten(staged);
    var chunks := Chunks(staged);
    assert Batches(pushed) == chunks[..|pushed|];
    FlattenPrefix(chunks, |pushed|);
  }

  /** No batch is empty or larger than 500, and every batch but the last holds exactly 500. */
  lemma PushBatchBounds(rows: seq<Row>, collection: string, idField: string, outcome: CommitOutcomes)
    ensures forall j :: 0 <= j < |Push(rows, collection, idField, outcome)| ==>
              0 < |Push(rows, collection, idField, outcome)[j].writes| <= BatchSize
    ensures forall j :: 0 <= j < |Push(rows, collection, idField, outcome)| - 1 ==>
              |Push(rows, collection, idField, outcome)[j].writes| == BatchSize
  {
    var pushed := Push(rows, collection, idField, outcome);
    PushBatchesAreChunks(rows, collection, idField, outcome);
    assert forall j :: 0 <= j < |pushed| ==> pushed[j].writes == Batches(pushed)[j];
  }

  /** With N keyed rows there are at most ceil(N / 500) commits, exactly that
      many when no commit raises, and none exactly when N is 0. */
  lemma PushCommitCount(rows: seq<Row>, collection: string, idField: string, outcome: CommitOutcomes)
    ensures |Push(rows, collection, idField, outcome)| <= (KeyedCount(rows, idField) + BatchSize - 1) / BatchSize
    ensures NeverRaises(outcome) ==>
              |Push(rows, collection, idField, outcome)| == (KeyedCount(rows, idField) + BatchSize - 1) / BatchSize
    ensures |Push(rows, collection, idField, outcome)| == 0 <==> KeyedCount(rows, idField) == 0
  {
    PushCommitsChunks(rows, collection, idField, outcome);
    PushBatchesAreChunks(rows, collection, idField, outcome);
    StagedWritesCount(rows, collection, idField);
    ChunksCount(StagedWrites(rows, collection, idField));
  }

  lemma AttemptedSameRaises(staged: seq<Write>, outcome1: CommitOutcomes, outcome2: CommitOutcomes)
    requires forall j: nat :: outcome1(j) == Raised <==> outcome2(j) == Raised
    ensures Batches(Attempted(Committed(staged, outcome1))) == Batches(Attempted(Committed(staged, outcome2)))
  {
    var expected1 := Committed(staged, outcome1);
    var expected2 := Committed(staged, outcome2);
    CommittedBatches(staged, outcome1);
    CommittedBatches(staged, outcome2);
    var attempted1 := Attempted(expected1);
    var k := |attempted1|;
    assert attempted1 == expected1[..k];
    forall j | 0 <= j < k - 1
      ensures expected2[j].result != Raised
    {
      assert attempted1[j] == expected1[j];
      assert outcome1(j) != Raised;
    }
    if k < |expected2| {
      assert attempted1[k - 1] == expected1[k - 1];
      assert outcome1(k - 1) == Raised;
    }
    AttemptedUnique(expected2, k);
    assert Batches(expected1[..k]) == Batches(expected1)[..k];
    assert Batches(expected2[..k]) == Batches(expected2)[..k];
  }

  /** A caught commit failure does not stop the transfer: whenever two outcome
      assignments raise at the same commits, the batches and their boundaries
      are the same; in particular a run whose failures are all caught commits
      the same batches as one where every commit succeeds. */
  lemma CaughtFailuresDoNotAffectBatching(rows: seq<Row>, collection: string, idField: string,
                                          outcome1: CommitOutcomes, outcome2: CommitOutcomes)
    ensures (forall j: nat :: outcome1(j) == Raised <==> outcome2(j) == Raised) ==>
              Batches(Push(rows, collection, idField, outcome1)) == Batches(Push(rows, collection, idField, outcome2))
  {
    if forall j: nat :: outcome1(j) == Raised <==> outcome2(j) == Raised {
      PushCommitsChunks(rows, collection, idField, outcome1);
      PushCommitsChunks(rows, collection, idField, outcome2);
      AttemptedSameRaises(StagedWrites(rows, collection, idField), outcome1, outcome2);
    }
  }

  lemma SkippedRowStagesNothing(before: seq<Row>, row: Row, after: seq<Row>, collection: string, idField: string)
    requires !HasKey(row, idField)
    ensures StagedWrites(before + [row] + after, collection, idField)
         == StagedWrites(before + after, collection, idField)
  {
    assert [row][..0] == [];
    assert StagedWrites([row], collection, idField) == [];
    StagedWritesConcat(before, [row], collection, idField);
    assert StagedWrites(before + [row], collection, idField) == StagedWrites(before, collection, idField);
    StagedWritesConcat(before + [row], after, collection, idField);
    StagedWritesConcat(before, after, collection, idField);
  }

  /** A row without a usable id leaves no trace: removing it changes no commit,
      so in particular it does not advance the count that decides batch
      boundaries. */
  lemma SkippedRowIsInvisible(before: seq<Row>, row: Row, after: seq<Row>,
                              collection: string, idField: string, outcome: CommitOutcomes)
    requires !HasKey(row, idField)
    ensures Push(before + [row] + after, collection, idField, outcome)
         == Push(before + after, collection, idField, outcome)
  {
    SkippedRowStagesNothing(before, row, after, collection, idField);
    PushCommitsChunks(before + [row] + after, collection, idField, outcome);
    PushCommitsChunks(before + after, collection, idField, outcome);
  }

  // ---------------------------------------------------------------------------
  // Scenarios

  /** Rows `{"uid": "a-1", "x": 1}` and `{"uid": "b 2", "x": 2}` with id field
      `uid` give one commit writing documents `a1` and `b2`. */
  lemma TwoRowExample(collection: string, outcome: CommitOutcomes)
    ensures Push([map["uid" := Str("a-1"), "x" := Int(1)], map["uid" := Str("b 2"), "x" := Int(2)]],
                 collection, "uid", outcome)
         == [Commit([Write(collection, "a1", map["x" := Int(1)]),
                     Write(collection, "b2", map["x" := Int(2)])], outcome(0))]
  {
    var r1 := map["uid" := Str("a-1"), "x" := Int(1)];
    var r2 := map["uid" := Str("b 2"), "x" := Int(2)];
    var rows := [r1, r2];
    var w1 := Write(collection, "a1", map["x" := Int(1)]);
    var w2 := Write(collection, "b2", map["x" := Int(2)]);
    assert Sanitize("a-1") == "a1";
    assert Sanitize("b 2") == "b2";
    assert r1 - {"uid"} == map["x" := Int(1)];
    assert r2 - {"uid"} == map["x" := Int(2)];
    assert Stage(r1, collection, "uid") == Some(w1);
    assert Stage(r2, collection, "uid") == Some(w2);
    assert rows[..1] == [r1];
    assert [r1][..0] == [];
    assert Run([r1], collection, "uid", outcome) == PushState(1, [w1], []);
    assert Run(rows, collection, "uid", outcome) == PushState(2, [w1, w2], []);
  }

  /** 501 rows with usable ids give two commits, of 500 and of 1 write; only
      the first when it raises. */
  lemma FiveHundredOneRows(rows: seq<Row>, collection: string, idField: string, outcome: CommitOutcomes)
    requires |rows| == 501
    requires forall i :: 0 <= i < |rows| ==> HasKey(rows[i], idField)
    ensures outcome(0) != Raised ==>
              && |Push(rows, collection, idField, outcome)| == 2
              && |Push(rows, collection, idField, outcome)[0].writes| == 500
              && |Push(rows, collection, idField, outcome)[1].writes| == 1
    ensures outcome(0) == Raised ==>
              && |Push(rows, collection, idField, outcome)| == 1
              && |Push(rows, collection, idField, outcome)[0].writes| == 500
  {
    var staged := StagedWrites(rows, collection, idField);
    var expected := Committed(staged, outcome);
    AllKeyedCount(rows, idField);
    StagedWritesCount(rows, collection, idField);
    ChunksCount(staged);
    ChunkAt(staged, 0);
    ChunkAt(staged, 1);
    PushCommitsChunks(rows, collection, idField, outcome);
    if outcome(0) == Raised {
      AttemptedUnique(expected, 1);
    } else {
      AttemptedUnique(expected, 2);
    }
  }

  lemma {:induction false} AllKeyedCount(rows: seq<Row>, idField: string)
    requires forall i :: 0 <= i < |rows| ==> HasKey(rows[i], idField)
    ensures KeyedCount(rows, idField) == |rows|
    decreases |rows|
  {
    if |rows| > 0 {
      AllKeyedCount(rows[..|rows| - 1], idField);
    }
  }

  /** A truthy id with no alphanumeric character is still written, under the empty document id. */
  lemma EmptySanitisedIdIsStaged(collection: string, outcome: CommitOutcomes)
    ensures Push([map["uid" := Str("-")]], collection, "uid", outcome)
         == [Commit([Write(collection, "", map[])], outcome(0))]
  {
    var r := map["uid" := Str("-")];
    var w := Write(collection, "", map[]);
    assert Sanitize("-") == "";
    assert r - {"uid"} == map[];
    assert Stage(r, collection, "uid") == Some(w);
    assert [r][..0] == [];
    assert Run([r], collection, "uid", outcome) == PushState(1, [w], []);
  }
}
