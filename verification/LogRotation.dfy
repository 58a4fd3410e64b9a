/**
 Log rotation (src/logger.ts, lines 313-441) over an abstract directory: what a logger started on an empty
 directory has kept after any number of writes. File operations are taken to succeed.
 */
module LogRotation {

  /** An entry as written, with its size in bytes. */
  datatype Line = Line(text: string, bytes: nat)

  /** The file `0` is the active one, `i` is its `i`-th predecessor. */
  type Directory = map<nat, seq<Line>>

  // ---------------------------------------------------------------------------------------------
  // Specification
  // ---------------------------------------------------------------------------------------------

  function Size(lines: seq<Line>): nat {
    if lines == [] then 0 else Size(lines[..|lines| - 1]) + lines[|lines| - 1].bytes
  }

  function FileAt(files: Directory, i: nat): seq<Line> {
    if i in files then files[i] else []
  }

  /** Every file below `keep` has moved up by one, the last of them is gone, and there is no active file. */
  ghost predicate Rotated(before: Directory, after: Directory, keep: nat) {
    && 0 !in after
    && (forall i :: 1 <= i < keep ==> (i in after <==> i - 1 in before) && (i in after ==> after[i] == before[i - 1]))
    && (forall i :: i >= keep && i >= 1 ==> (i in after <==> i in before) && (i in after ==> after[i] == before[i]))
  }

  /** The file `source` is now `target`, the others stay. */
  ghost predicate Renamed(before: Directory, after: Directory, source: nat, target: nat) {
    && source !in after
    && (target in after <==> source in before) && (target in after ==> after[target] == before[source])
    && forall i :: i != source && i != target ==>
         (i in after <==> i in before) && (i in after ==> after[i] == before[i])
  }

  /** Halfway: files above `index` have moved up, those up to it are still to go, and the next target is free. */
  ghost predicate Shifted(was: Directory, files: Directory, index: nat, keep: nat) {
    && index + 1 !in files
    && (forall i :: index + 1 < i < keep ==> (i in files <==> i - 1 in was) && (i in files ==> files[i] == was[i - 1]))
    && (forall i :: 0 <= i <= index || i >= keep ==> (i in files <==> i in was) && (i in files ==> files[i] == was[i]))
  }

  predicate MustRotate(files: Directory, maxFileSize: nat, pending: nat) {
    maxFileSize != 0 && 0 in files && Size(files[0]) + pending > maxFileSize
  }

  /** The files as a list, the active one first. */
  type Chain = seq<seq<Line>>

  ghost predicate Holds(files: Directory, chain: Chain) {
    forall i :: (i in files <==> 0 <= i < |chain|) && (i in files ==> files[i] == chain[i])
  }

  /** A line that no longer fits starts a new file, and a file too many is dropped at the far end. */
  function Log(chain: Chain, line: Line, maxSize: nat, maxCount: nat): Chain {
    if chain == [] then [[line]]
    else if maxSize != 0 && Size(chain[0]) + line.bytes > maxSize then
      if |chain| < maxCount then [[line]] + chain else [[line]] + chain[..|chain| - 1]
    else [chain[0] + [line]] + chain[1..]
  }

  // ---------------------------------------------------------------------------------------------
  // The logger
  // ---------------------------------------------------------------------------------------------

  class StructuredLogger {
    var files: Directory
    const maxFileSizeBytes: nat
    const maxFileCount: nat
    ghost var chain: Chain

    ghost predicate Valid()
      reads this
    {
      Holds(files, chain) && |chain| <= maxFileCount && maxFileCount >= 1
    }

    constructor (maxFileSizeBytes: nat, maxFileCount: int)
      ensures this.maxFileSizeBytes == maxFileSizeBytes
      ensures this.maxFileCount == (if maxFileCount < 1 then 1 else maxFileCount)
      ensures Valid() && chain == []
    {
      this.maxFileSizeBytes := maxFileSizeBytes;
      this.maxFileCount := if maxFileCount < 1 then 1 else maxFileCount;
      files, chain := map[], [];
    }

    /** One entry of the write queue. */
    method Append(line: Line)
      requires Valid()
      modifies this
      ensures Valid() && chain == Log(old(chain), line, maxFileSizeBytes, maxFileCount)
    {
      hide Rotated, Holds, Log, Size;
      var rotated := RotateIfNeeded(line.bytes);
      if rotated {
        StartsNewFile(old(files), files, chain, line, maxFileSizeBytes, maxFileCount);
      } else {
        ExtendsActiveFile(files, chain, line, maxFileSizeBytes, maxFileCount);
      }
      files := files[0 := FileAt(files, 0) + [line]];
      LogStaysShort(chain, line, maxFileSizeBytes, maxFileCount);
      chain := Log(chain, line, maxFileSizeBytes, maxFileCount);
    }

    method RotateIfNeeded(pendingBytes: nat) returns (rotated: bool)
      requires maxFileCount >= 1
      modifies this`files
      ensures rotated == MustRotate(old(files), maxFileSizeBytes, pendingBytes)
      ensures if rotated then Rotated(old(files), files, maxFileCount) else files == old(files)
    {
      if maxFileSizeBytes == 0 {
        return false;
      }
      if 0 !in files {
        return false;
      }
      var currentSize := Size(files[0]);
      if currentSize + pendingBytes <= maxFileSizeBytes {
        return false;
      }
      PerformRotation();
      return true;
    }

    /** Each rename finds its target free: the files move up from the oldest on. */
    method PerformRotation()
      requires maxFileCount >= 1
      modifies this`files
      ensures Rotated(old(files), files, maxFileCount)
    {
      hide Rotated, Shifted, Renamed;
      ghost var was := files;
      var keep := maxFileCount;
      if keep == 1 {
        files := files - {0};
        OnlyFileGone(was);
        return;
      }
      files := files - {keep - 1};
      LastFileGone(was, keep);
      var index := keep - 2;
      while index >= 1
        invariant 0 <= index <= keep - 2
        invariant Shifted(was, files, index, keep)
      {
        ghost var before := files;
        FreeTarget(was, files, index, keep);
        Rename(index, index + 1);
        RenameShifts(was, before, files, index, keep);
        index := index - 1;
      }
      ghost var before := files;
      FreeTarget(was, files, 0, keep);
      Rename(0, 1);
      RenameRotates(was, before, files, keep);
    }

    /** A missing source is ignored. */
    method Rename(source: nat, target: nat)
      requires source != target && target !in files
      modifies this`files
      ensures Renamed(old(files), files, source, target)
    {
      if source in files {
        files := files[target := files[source]] - {source};
      }
    }
  }

  lemma OnlyFileGone(was: Directory)
    ensures Rotated(was, was - {0}, 1)
  {
  }

  lemma LastFileGone(was: Directory, keep: nat)
    requires keep >= 2
    ensures Shifted(was, was - {keep - 1}, keep - 2, keep)
  {
  }

  lemma FreeTarget(was: Directory, files: Directory, index: nat, keep: nat)
    requires Shifted(was, files, index, keep)
    ensures index + 1 !in files
  {
  }

  lemma RenameShifts(was: Directory, before: Directory, after: Directory, index: nat, keep: nat)
    requires 1 <= index <= keep - 2 && Shifted(was, before, index, keep) && Renamed(before, after, index, index + 1)
    ensures Shifted(was, after, index - 1, keep)
  {
    forall i | index < i < keep ensures (i in after <==> i - 1 in was) && (i in after ==> after[i] == was[i - 1]) {
      if i > index + 1 {
        assert i in before <==> i - 1 in was;
      } else {
        assert index in before <==> index in was;
      }
    }
  }

  lemma RenameRotates(was: Directory, before: Directory, after: Directory, keep: nat)
    requires 2 <= keep && Shifted(was, before, 0, keep) && Renamed(before, after, 0, 1)
    ensures Rotated(was, after, keep)
  {
    forall i | 1 <= i < keep ensures (i in after <==> i - 1 in was) && (i in after ==> after[i] == was[i - 1]) {
      if i > 1 {
        assert i in before <==> i - 1 in was;
      } else {
        assert 0 in before <==> 0 in was;
      }
    }
  }

  lemma StartsNewFile(before: Directory, rotated: Directory, chain: Chain, line: Line, maxSize: nat, maxCount: nat)
    requires Holds(before, chain) && 1 <= maxCount && |chain| <= maxCount
    requires MustRotate(before, maxSize, line.bytes) && Rotated(before, rotated, maxCount)
    ensures Holds(rotated[0 := FileAt(rotated, 0) + [line]], Log(chain, line, maxSize, maxCount))
  {
    hide Size;
    var after, chain' := rotated[0 := FileAt(rotated, 0) + [line]], Log(chain, line, maxSize, maxCount);
    assert after[0] == [line] == chain'[0];
    forall i ensures (i in after <==> 0 <= i < |chain'|) && (i in after ==> after[i] == chain'[i]) {
      if 1 <= i < maxCount {
        assert i in rotated <==> i - 1 in before;
      } else if i >= 1 {
        assert i in rotated <==> i in before;
      }
    }
  }

  lemma ExtendsActiveFile(files: Directory, chain: Chain, line: Line, maxSize: nat, maxCount: nat)
    requires Holds(files, chain) && !MustRotate(files, maxSize, line.bytes)
    ensures Holds(files[0 := FileAt(files, 0) + [line]], Log(chain, line, maxSize, maxCount))
  {
    hide Size;
    assert [] + [line] == [line];
  }

  lemma LogStaysShort(chain: Chain, line: Line, maxSize: nat, maxCount: nat)
    requires 1 <= maxCount && |chain| <= maxCount
    ensures |Log(chain, line, maxSize, maxCount)| <= maxCount
  {
  }

  // ---------------------------------------------------------------------------------------------
  // What is kept
  // ---------------------------------------------------------------------------------------------

  /** The lines of all files, oldest first. */
  function Retained(chain: Chain): seq<Line> {
    if chain == [] then [] else Retained(chain[1..]) + chain[0]
  }

  ghost predicate Tail(kept: seq<Line>, all: seq<Line>) {
    |kept| <= |all| && kept == all[|all| - |kept|..]
  }

  /** Each file is within the size limit or holds a single line. */
  ghost predicate Sized(chain: Chain, maxSize: nat) {
    forall i :: 0 <= i < |chain| ==> chain[i] != [] && (maxSize == 0 || Size(chain[i]) <= maxSize || |chain[i]| == 1)
  }

  lemma SizeOfOneMore(lines: seq<Line>, line: Line)
    ensures Size(lines + [line]) == Size(lines) + line.bytes
  {
    assert (lines + [line])[..|lines|] == lines;
  }

  lemma {:induction false} RetainedWithoutOldest(chain: Chain)
    requires chain != []
    ensures Retained(chain) == chain[|chain| - 1] + Retained(chain[..|chain| - 1])
  {
    if |chain| == 1 {
      assert chain[1..] == [] && chain[..0] == [];
    } else {
      RetainedWithoutOldest(chain[1..]);
      assert chain[1..][..|chain| - 2] == chain[..|chain| - 1][1..];
    }
  }

  lemma TailOfJoin(dropped: seq<Line>, tail: seq<Line>, all: seq<Line>)
    requires Tail(dropped + tail, all)
    ensures Tail(tail, all)
  {
    var whole := dropped + tail;
    forall k | 0 <= k < |tail| ensures tail[k] == all[|all| - |tail| + k] {
      assert whole[|dropped| + k] == tail[k];
    }
  }

  lemma LogKeepsTail(chain: Chain, line: Line, maxSize: nat, maxCount: nat, all: seq<Line>)
    requires Tail(Retained(chain), all)
    ensures Tail(Retained(Log(chain, line, maxSize, maxCount)), all + [line])
  {
    hide Size;
    var chain' := Log(chain, line, maxSize, maxCount);
    if chain == [] {
      assert [[line]][1..] == [];
    } else if maxSize != 0 && Size(chain[0]) + line.bytes > maxSize {
      if |chain| < maxCount {
        assert chain'[1..] == chain;
      } else {
        assert chain'[1..] == chain[..|chain| - 1];
        RetainedWithoutOldest(chain);
        TailOfJoin(chain[|chain| - 1], Retained(chain[..|chain| - 1]), all);
      }
    } else {
      assert chain'[1..] == chain[1..];
      assert Retained(chain') == Retained(chain) + [line];
    }
  }

  lemma LogKeepsSized(chain: Chain, line: Line, maxSize: nat, maxCount: nat)
    requires Sized(chain, maxSize)
    ensures Sized(Log(chain, line, maxSize, maxCount), maxSize)
  {
    hide Size;
    if chain != [] {
      SizeOfOneMore(chain[0], line);
    }
  }

  /** The files after a run of writes on an empty directory. */
  function Logged(lines: seq<Line>, maxSize: nat, maxCount: nat): Chain {
    if lines == [] then []
      else Log(Logged(lines[..|lines| - 1], maxSize, maxCount), lines[|lines| - 1], maxSize, maxCount)
  }

  /**
   After any writes the files, read oldest to newest, hold exactly the last lines written; there are at most
   `maxCount` of them; each is within the limit or holds one line; and the last line is never lost.
   */
  lemma {:induction false} LogKeepsNewestLines(lines: seq<Line>, maxSize: nat, maxCount: nat)
    requires maxCount >= 1
    ensures var chain := Logged(lines, maxSize, maxCount);
            && |chain| <= maxCount && Sized(chain, maxSize) && Tail(Retained(chain), lines)
            && (lines != [] ==> chain != [] && chain[0][|chain[0]| - 1] == lines[|lines| - 1])
  {
    hide Retained, Sized, Tail, Size;
    if lines == [] {
      NothingRetained(maxSize);
    } else {
      var front, last := lines[..|lines| - 1], lines[|lines| - 1];
      assert front + [last] == lines;
      LogKeepsNewestLines(front, maxSize, maxCount);
      var chain := Logged(front, maxSize, maxCount);
      LogKeepsTail(chain, last, maxSize, maxCount, front);
      LogKeepsSized(chain, last, maxSize, maxCount);
      SizedNotEmpty(Logged(lines, maxSize, maxCount), maxSize);
    }
  }

  lemma NothingRetained(maxSize: nat)
    ensures Tail(Retained([]), []) && Sized([], maxSize)
  {
  }

  lemma SizedNotEmpty(chain: Chain, maxSize: nat)
    requires Sized(chain, maxSize) && chain != []
    ensures chain[0] != []
  {
  }

  /**
   Nothing is dropped before there are `maxCount` files, and no room is wasted: the first line of a file would not
   have fitted in the file before it.
   */
  lemma {:induction false} LogKeepsAsMuchAsFits(lines: seq<Line>, maxSize: nat, maxCount: nat)
    requires maxCount >= 1
    ensures var chain := Logged(lines, maxSize, maxCount);
            && (|chain| < maxCount ==> Retained(chain) == lines)
            && Packed(chain, maxSize)
  {
    hide Size;
    if lines != [] {
      var front, last := lines[..|lines| - 1], lines[|lines| - 1];
      assert front + [last] == lines;
      LogKeepsAsMuchAsFits(front, maxSize, maxCount);
      LogStaysPacked(Logged(front, maxSize, maxCount), last, maxSize, maxCount);
      LogKeepsAll(Logged(front, maxSize, maxCount), last, maxSize, maxCount);
    }
  }

  /** The first line of a file would have taken the file before it over the limit. */
  ghost predicate Outgrown(older: seq<Line>, newer: seq<Line>, maxSize: nat) {
    maxSize != 0 && newer != [] && Size(older) + newer[0].bytes > maxSize
  }

  ghost predicate Packed(chain: Chain, maxSize: nat) {
    && (forall i :: 0 <= i < |chain| ==> chain[i] != [])
    && forall i, j :: 0 <= i < j < |chain| && j == i + 1 ==> Outgrown(chain[j], chain[i], maxSize)
  }

  lemma LogStaysPacked(chain: Chain, line: Line, maxSize: nat, maxCount: nat)
    requires Packed(chain, maxSize)
    ensures Packed(Log(chain, line, maxSize, maxCount), maxSize)
  {
    hide Size;
    var chain' := Log(chain, line, maxSize, maxCount);
    forall i, j | 0 <= i < j < |chain'| && j == i + 1 ensures Outgrown(chain'[j], chain'[i], maxSize) {
      if maxSize != 0 && Size(chain[0]) + line.bytes > maxSize {
        assert chain'[j] == chain[i] && (i > 0 ==> chain'[i] == chain[i - 1]);
      } else {
        assert chain'[j] == chain[j] && chain'[i][0] == chain[i][0];
      }
    }
  }

  lemma LogKeepsAll(chain: Chain, line: Line, maxSize: nat, maxCount: nat)
    ensures var chain' := Log(chain, line, maxSize, maxCount);
            |chain'| < maxCount ==> |chain| < maxCount && Retained(chain') == Retained(chain) + [line]
  {
    hide Size;
    var chain' := Log(chain, line, maxSize, maxCount);
    if chain == [] {
      assert chain'[1..] == [];
    } else if maxSize != 0 && Size(chain[0]) + line.bytes > maxSize {
      assert |chain| < maxCount ==> chain'[1..] == chain;
    } else {
      assert chain'[1..] == chain[1..];
    }
  }

  /** Without a size limit nothing is ever dropped. */
  lemma {:induction false} NoLimitKeepsAll(lines: seq<Line>, maxCount: nat)
    requires maxCount >= 1
    ensures Retained(Logged(lines, 0, maxCount)) == lines
    ensures |Logged(lines, 0, maxCount)| <= 1
  {
    if lines != [] {
      var front, last := lines[..|lines| - 1], lines[|lines| - 1];
      NoLimitKeepsAll(front, maxCount);
      var chain, chain' := Logged(front, 0, maxCount), Logged(lines, 0, maxCount);
      assert chain'[1..] == [];
      if chain != [] {
        assert chain[1..] == [];
      }
      assert lines == front + [last];
    }
  }
}
