/**
 Greedy batching of mined files for a remote: at most so many files and so many bytes a
 batch, except that one oversized file goes alone.
 */
module RemoteBatches {

  const MAX_BYTES: nat := 4 * 1024 * 1024
  const MAX_FILES: nat := 64

  /** One mined file, by the byte lengths of its chunk texts. */
  datatype IngestFile = IngestFile(path: string, chunkBytes: seq<nat>)

  function Sum(lengths: seq<nat>): nat {
    if lengths == [] then 0 else lengths[0] + Sum(lengths[1..])
  }

  function Bytes(files: seq<IngestFile>): nat {
    if files == [] then 0 else Bytes(files[..|files| - 1]) + Sum(files[|files| - 1].chunkBytes)
  }

  function Concat(batches: seq<seq<IngestFile>>): seq<IngestFile> {
    if batches == [] then [] else Concat(batches[..|batches| - 1]) + batches[|batches| - 1]
  }

  /** What a request may hold. */
  predicate Fits(batch: seq<IngestFile>, maxFiles: nat) {
    batch != [] && |batch| <= maxFiles && (Bytes(batch) <= MAX_BYTES || |batch| == 1)
  }

  ghost predicate AllFit(batches: seq<seq<IngestFile>>, maxFiles: nat) {
    forall b :: b in batches ==> Fits(b, maxFiles)
  }

  /** An order-preserving split of the files into requests that may be sent. */
  ghost predicate Partition(files: seq<IngestFile>, batches: seq<seq<IngestFile>>, maxFiles: nat) {
    Concat(batches) == files && AllFit(batches, maxFiles)
  }

  /** No batch but the last could have taken the first file of the next one. */
  ghost predicate Full(batches: seq<seq<IngestFile>>, maxFiles: nat) {
    forall i {:trigger batches[i]} :: 0 <= i < |batches| - 1 && batches[i + 1] != [] ==>
      !Fits(batches[i] + [batches[i + 1][0]], maxFiles)
  }

  // ----- sums over parts -----

  lemma {:induction false} BytesAppend(a: seq<IngestFile>, b: seq<IngestFile>)
    ensures Bytes(a + b) == Bytes(a) + Bytes(b)
  {
    if b == [] {
      assert a + b == a;
    } else {
      var k := |b| - 1;
      assert (a + b)[..|a + b| - 1] == a + b[..k];
      BytesAppend(a, b[..k]);
    }
  }

  lemma {:induction false} ConcatAppend(a: seq<seq<IngestFile>>, b: seq<seq<IngestFile>>)
    ensures Concat(a + b) == Concat(a) + Concat(b)
  {
    if b == [] {
      assert a + b == a;
    } else {
      var k := |b| - 1;
      assert (a + b)[..|a + b| - 1] == a + b[..k];
      assert (a + b)[|a + b| - 1] == b[k];
      ConcatAppend(a, b[..k]);
      assert Concat(a) + Concat(b[..k]) + b[k] == Concat(a) + (Concat(b[..k]) + b[k]);
    }
  }

  lemma ConcatFirst(batches: seq<seq<IngestFile>>)
    requires batches != []
    ensures Concat(batches) == batches[0] + Concat(batches[1..])
  {
    assert batches == [batches[0]] + batches[1..];
    ConcatAppend([batches[0]], batches[1..]);
    assert [batches[0]][..0] == [];
    assert Concat([batches[0]]) == batches[0];
  }

  /** Part of a batch that may be sent may be sent. */
  lemma PartFits(batch: seq<IngestFile>, i: nat, j: nat, maxFiles: nat)
    requires Fits(batch, maxFiles) && i < j <= |batch|
    ensures Fits(batch[i..j], maxFiles)
  {
    assert batch == batch[..i] + batch[i..j] + batch[j..];
    BytesAppend(batch[..i] + batch[i..j], batch[j..]);
    BytesAppend(batch[..i], batch[i..j]);
  }

  // ----- full batches are fewest -----

  /** One file more than the first full batch may not be sent. */
  lemma {:induction false} FirstIsFull(batches: seq<seq<IngestFile>>, maxFiles: nat)
    requires AllFit(batches, maxFiles) && Full(batches, maxFiles) && |batches| > 1
    ensures |batches[0]| < |Concat(batches)|
    ensures !Fits(Concat(batches)[..|batches[0]| + 1], maxFiles)
  {
    ConcatFirst(batches);
    ConcatFirst(batches[1..]);
    assert batches[1] in batches;
    assert Fits(batches[1], maxFiles);
    assert Concat(batches)[..|batches[0]| + 1] == batches[0] + [batches[1][0]];
    assert batches[0 + 1] != [];
  }

  /** A stretch of files that starts where full batches start reaches no further than the first of them. */
  lemma {:induction false} FirstReachesFurthest(batches: seq<seq<IngestFile>>, rest: seq<IngestFile>, n: nat, maxFiles: nat)
    requires AllFit(batches, maxFiles) && Full(batches, maxFiles)
    requires batches != [] && rest == Concat(batches) && 0 < n <= |rest|
    requires Fits(rest[..n], maxFiles)
    ensures n <= |batches[0]|
  {
    ConcatFirst(batches);
    assert |batches| == 1 ==> Concat(batches[1..]) == [];
    if |batches| > 1 && n > |batches[0]| {
      PartFits(rest[..n], 0, |batches[0]| + 1, maxFiles);
      assert rest[..n][0..|batches[0]| + 1] == rest[..|batches[0]| + 1];
      FirstIsFull(batches, maxFiles);
    }
  }

  lemma TailFull(batches: seq<seq<IngestFile>>, maxFiles: nat)
    requires batches != [] && AllFit(batches, maxFiles) && Full(batches, maxFiles)
    ensures AllFit(batches[1..], maxFiles) && Full(batches[1..], maxFiles)
  {
    var rest := batches[1..];
    forall i | 0 <= i < |rest| - 1 && rest[i + 1] != []
      ensures !Fits(rest[i] + [rest[i + 1][0]], maxFiles)
    {
      assert rest[i] == batches[i + 1] && rest[i + 1] == batches[i + 2];
    }
  }

  lemma DropPast<T>(x: seq<T>, y: seq<T>, k: nat)
    requires |x| <= k <= |x + y|
    ensures (x + y)[k..] == y[k - |x|..]
  {
  }

  lemma DropWithin<T>(x: seq<T>, y: seq<T>, k: nat)
    requires k < |x|
    ensures (x + y)[k..][..|x| - k] == x[k..|x|]
  {
  }

  lemma DropTwice<T>(x: seq<T>, k: nat, first: seq<T>, rest: seq<T>)
    requires k <= |x| && x[k..] == first + rest
    ensures k + |first| <= |x| && rest == x[k + |first|..]
  {
    assert rest == (first + rest)[|first|..] == x[k..][|first|..];
  }

  /** Where the full batches start inside the other split's first batch, their first batch reaches its end. */
  lemma {:induction false} CatchesUp(full: seq<seq<IngestFile>>, other: seq<seq<IngestFile>>, ahead: nat, maxFiles: nat)
    requires AllFit(full, maxFiles) && Full(full, maxFiles) && full != []
    requires other != [] && Fits(other[0], maxFiles) && ahead < |other[0]|
    requires Concat(other) == other[0] + Concat(other[1..]) && Concat(full) == Concat(other)[ahead..]
    ensures var behind := ahead + |full[0]| - |other[0]|;
            && 0 <= behind <= |Concat(other[1..])|
            && Concat(full[1..]) == Concat(other[1..])[behind..]
  {
    hide Fits, Full, Bytes, Concat;
    var x, y := other[0], Concat(other[1..]);
    ConcatFirst(full);
    DropWithin(x, y, ahead);
    PartFits(x, ahead, |x|, maxFiles);
    FirstReachesFurthest(full, Concat(full), |x| - ahead, maxFiles);
    DropTwice(x + y, ahead, full[0], Concat(full[1..]));
    DropPast(x, y, ahead + |full[0]|);
  }

  /**
   Greedy stays ahead: if full batches cover a suffix of what another split covers, they
   are no more than its batches.
   */
  lemma {:induction false} StaysAhead(full: seq<seq<IngestFile>>, other: seq<seq<IngestFile>>, ahead: nat, maxFiles: nat)
    requires AllFit(full, maxFiles) && Full(full, maxFiles) && AllFit(other, maxFiles)
    requires ahead <= |Concat(other)| && Concat(full) == Concat(other)[ahead..]
    ensures |full| <= |other|
    decreases |other|
  {
    if full != [] {
      assert full[0] in full && full[0] != [];
      ConcatFirst(full);
      assert other != [];
      hide Fits, Full, Bytes, Concat;
      ConcatFirst(other);
      assert other[0] in other;
      if ahead >= |other[0]| {
        DropPast(other[0], Concat(other[1..]), ahead);
        StaysAhead(full, other[1..], ahead - |other[0]|, maxFiles);
      } else {
        CatchesUp(full, other, ahead, maxFiles);
        TailFull(full, maxFiles);
        StaysAhead(full[1..], other[1..], ahead + |full[0]| - |other[0]|, maxFiles);
      }
    }
  }

  lemma FullIsFewest(files: seq<IngestFile>, full: seq<seq<IngestFile>>, other: seq<seq<IngestFile>>, maxFiles: nat)
    requires Partition(files, full, maxFiles) && Full(full, maxFiles) && Partition(files, other, maxFiles)
    ensures |full| <= |other|
  {
    assert files[0..] == files;
    StaysAhead(full, other, 0, maxFiles);
  }

  // ----- the loop -----

  function Limit(maxFiles: nat): (n: nat)
    ensures n == if maxFiles > 0 then maxFiles else 64
  {
    if maxFiles == 0 then MAX_FILES else maxFiles
  }

  lemma Push(batches: seq<seq<IngestFile>>, batch: seq<IngestFile>)
    ensures Concat(batches + [batch]) == Concat(batches) + batch
  {
    assert (batches + [batch])[..|batches|] == batches;
  }

  /** A batch and one file more: its bytes, and whether it may be sent. */
  lemma Grow(current: seq<IngestFile>, file: IngestFile, limit: nat)
    requires limit > 0 && (current == [] || Fits(current, limit))
    ensures Bytes(current + [file]) == Bytes(current) + Sum(file.chunkBytes)
    ensures Fits(current + [file], limit) <==>
            !(Bytes(current) + Sum(file.chunkBytes) > MAX_BYTES && current != []) && |current| < limit
  {
    assert (current + [file])[..|current|] == current;
  }

  /** The batches closed so far and the one still open, as the loop keeps them. */
  ghost predicate Open(batches: seq<seq<IngestFile>>, current: seq<IngestFile>, limit: nat) {
    && AllFit(batches, limit)
    && (if current == [] then batches == [] else Fits(current, limit) && Full(batches + [current], limit))
  }

  /** The open batch is closed and the file starts a new one. */
  lemma Close(batches: seq<seq<IngestFile>>, current: seq<IngestFile>, file: IngestFile, limit: nat)
    requires Open(batches, current, limit) && current != [] && limit > 0 && !Fits(current + [file], limit)
    ensures Open(batches + [current], [file], limit)
  {
    Grow([], file, limit);
    assert [] + [file] == [file];
    var closed := batches + [current];
    var all := closed + [[file]];
    forall i | 0 <= i < |all| - 1 && all[i + 1] != []
      ensures !Fits(all[i] + [all[i + 1][0]], limit)
    {
      if i < |closed| - 1 {
        assert all[i] == closed[i] && all[i + 1] == closed[i + 1];
      } else {
        assert all[i] == current && all[i + 1] == [file];
      }
    }
  }

  /** The file joins the open batch. */
  lemma Join(batches: seq<seq<IngestFile>>, current: seq<IngestFile>, file: IngestFile, limit: nat)
    requires Open(batches, current, limit) && Fits(current + [file], limit)
    ensures Open(batches, current + [file], limit)
  {
    var before := batches + [current];
    var all := batches + [current + [file]];
    forall i | 0 <= i < |all| - 1 && all[i + 1] != []
      ensures !Fits(all[i] + [all[i + 1][0]], limit)
    {
      assert all[i] == before[i] && before[i + 1] != [] && all[i + 1][0] == before[i + 1][0];
    }
  }

  /**
   `build_remote_batches`. The batches are the files in order, each batch may be sent, and
   no other order-preserving split into batches that may be sent has fewer of them.
   */
  method BuildRemoteBatches(files: seq<IngestFile>, maxFiles: nat) returns (batches: seq<seq<IngestFile>>)
    ensures Partition(files, batches, Limit(maxFiles))
    ensures forall other :: Partition(files, other, Limit(maxFiles)) ==> |batches| <= |other|
  {
    hide Fits, Full, Bytes, Sum;
    var limit := Limit(maxFiles);
    batches := [];
    var current: seq<IngestFile> := [];
    var currentBytes := 0;
    NothingYet(limit);
    for i := 0 to |files|
      invariant files[..i] == Concat(batches) + current
      invariant currentBytes == Bytes(current)
      invariant Open(batches, current, limit)
    {
      var file := files[i];
      var fileBytes := Sum(file.chunkBytes);
      assert files[..i + 1] == files[..i] + [file];
      Grow(current, file, limit);
      var wouldOverflowBytes := currentBytes + fileBytes > MAX_BYTES && current != [];
      var wouldOverflowFiles := |current| >= limit;
      if wouldOverflowBytes || wouldOverflowFiles {
        Push(batches, current);
        Close(batches, current, file, limit);
        Grow([], file, limit);
        assert [] + [file] == [file];
        batches := batches + [current];
        current := [];
        currentBytes := 0;
      } else {
        Join(batches, current, file, limit);
        assert Concat(batches) + (current + [file]) == Concat(batches) + current + [file];
      }
      currentBytes := currentBytes + fileBytes;
      current := current + [file];
    }
    assert files[..|files|] == files;
    if current != [] {
      Push(batches, current);
      batches := batches + [current];
    }
    assert Partition(files, batches, limit);
    assert Full(batches, limit);
    forall other | Partition(files, other, limit)
      ensures |batches| <= |other|
    {
      FullIsFewest(files, batches, other, limit);
    }
  }

  /** A request that may be sent: some files, no more than the limit, and no more than four mebibytes unless it is one file. */
  lemma FitsExactly(batch: seq<IngestFile>, maxFiles: nat)
    ensures Fits(batch, maxFiles) <==>
            0 < |batch| <= maxFiles && (|batch| == 1 || TextBytes(batch) <= 4_194_304)
  {
    BytesForward(batch);
  }

  /** The bytes of a batch, counted from its front, chunk by chunk. */
  function TextBytes(batch: seq<IngestFile>): nat {
    if batch == [] then 0 else ChunkTotal(batch[0].chunkBytes) + TextBytes(batch[1..])
  }

  function ChunkTotal(lengths: seq<nat>): nat {
    if lengths == [] then 0 else ChunkTotal(lengths[..|lengths| - 1]) + lengths[|lengths| - 1]
  }

  lemma {:induction false} SumForward(lengths: seq<nat>, more: seq<nat>)
    ensures Sum(lengths + more) == Sum(lengths) + Sum(more)
  {
    if lengths == [] {
      assert lengths + more == more;
    } else {
      assert (lengths + more)[1..] == lengths[1..] + more;
      SumForward(lengths[1..], more);
    }
  }

  lemma {:induction false} ChunksCounted(lengths: seq<nat>)
    ensures ChunkTotal(lengths) == Sum(lengths)
  {
    if lengths != [] {
      var front, last := lengths[..|lengths| - 1], lengths[|lengths| - 1];
      ChunksCounted(front);
      SumForward(front, [last]);
      assert front + [last] == lengths && Sum([last]) == last + Sum([last][1..]);
    }
  }

  lemma {:induction false} BytesForward(batch: seq<IngestFile>)
    ensures TextBytes(batch) == Bytes(batch)
  {
    if batch != [] {
      BytesForward(batch[1..]);
      ChunksCounted(batch[0].chunkBytes);
      assert batch == [batch[0]] + batch[1..];
      BytesAppend([batch[0]], batch[1..]);
      assert [batch[0]][..0] == [];
    }
  }

  lemma NothingYet(limit: nat)
    ensures Full([], limit) && Bytes([]) == 0
  {
  }
}
