/** The size-rotating file handler over the files it owns (haclog_file_rotate_handler.c), driven by
    `haclog_handler_write`. Files are looked up by name; writing appends to the current file. */
module RotateHandler {
  /** The handler's file names: the given path, or the path with a number behind it. */
  datatype Name = Current | Backup(n: int)

  type Content = seq<char>

  type Files = map<Name, Content>

  // ------------------------------------------------------------ specification

  /** A file that may be missing. */
  datatype File = Missing | Present(content: Content)

  function Look(files: Files, name: Name): File {
    if name in files then Present(files[name]) else Missing
  }

  /** How many files behind the current one survive: with no backups asked for, one. */
  function Kept(backupCount: int): int {
    if backupCount < 1 then 1 else backupCount
  }

  /** Every kept file moved up one number, the last one dropped, the current one empty. */
  ghost predicate Rotated(files: Files, files': Files, backupCount: int) {
    && Look(files', Current) == Present([])
    && Look(files', Backup(1)) == Look(files, Current)
    && (forall i :: 1 <= i < Kept(backupCount) ==> Look(files', Backup(i + 1)) == Look(files, Backup(i)))
    && (forall i :: i > Kept(backupCount) || i < 0 ==> Look(files', Backup(i)) == Look(files, Backup(i)))
    && Look(files', Backup(0)) == (if backupCount == 0 then Missing else Look(files, Backup(0)))
  }

  /** The newest `n` + 1 files, the current one first. */
  function Shelf(files: Files, n: nat): seq<File> {
    seq(n + 1, i => Look(files, if i == 0 then Current else Backup(i)))
  }

  function Text(f: File): Content {
    if f.Present? then f.content else []
  }

  /** An unbounded archive, newest file first: a line goes to the first file, which is closed by a new one
      once it is long enough. */
  function Feed(archive: seq<File>, line: Content, maxBytes: int): seq<File>
    requires archive != []
  {
    var now := Text(archive[0]) + line;
    if |now| >= maxBytes then [Present([]), Present(now)] + archive[1..] else [Present(now)] + archive[1..]
  }

  function FeedAll(archive: seq<File>, lines: seq<Content>, maxBytes: int): (a: seq<File>)
    requires archive != []
    ensures |a| >= |archive|
  {
    if lines == [] then archive
    else Feed(FeedAll(archive, lines[..|lines| - 1], maxBytes), lines[|lines| - 1], maxBytes)
  }

  lemma {:induction false} FeedCut(archive: seq<File>, line: Content, maxBytes: int)
    requires archive != []
    ensures
      var n, now := |archive| - 1, Text(archive[0]) + line;
      var written := [Present(now)] + archive[1..];
      Feed(archive, line, maxBytes)[..n + 1] == if |now| >= maxBytes then [Present([])] + written[..n] else written
  {
  }

  /** Everything in an archive, oldest first. */
  function History(archive: seq<File>): Content {
    if archive == [] then [] else History(archive[1..]) + Text(archive[0])
  }

  function Concat(lines: seq<Content>): Content {
    if lines == [] then [] else Concat(lines[..|lines| - 1]) + lines[|lines| - 1]
  }

  // ---------------------------------------------------------------- handler

  /** `rename`: fails when there is no such file; replaces an existing target. */
  function Rename(files: Files, src: Name, dst: Name): Files
    requires src != dst
  {
    if src in files then (files - {src})[dst := files[src]] else files
  }

  /** The backup with number `k` while the renames have come down to `i`. */
  function HalfMoved(was: Files, backupCount: int, i: int, k: int): File {
    if k == i + 1 then Missing
    else if i + 1 < k <= backupCount then Look(was, Backup(k - 1))
    else Look(was, Backup(k))
  }

  /** The renames have come down to `i`. */
  ghost predicate ComeDown(was: Files, files: Files, backupCount: int, i: int) {
    && (0 <= i < backupCount || i == backupCount - 1)
    && Look(files, Current) == Look(was, Current)
    && forall k :: Look(files, Backup(k)) == HalfMoved(was, backupCount, i, k)
  }

  lemma {:induction false} ComeDownStart(was: Files, files: Files, backupCount: int)
    requires backupCount >= 0
    requires files == if Backup(backupCount) in was then was - {Backup(backupCount)} else was
    ensures ComeDown(was, files, backupCount, backupCount - 1)
  {
  }

  lemma {:induction false} ComeDownStep(was: Files, files: Files, backupCount: int, i: int)
    requires ComeDown(was, files, backupCount, i) && 0 < i < backupCount
    ensures ComeDown(was, Rename(files, Backup(i), Backup(i + 1)), backupCount, i - 1)
  {
    var files' := Rename(files, Backup(i), Backup(i + 1));
    assert Look(files, Backup(i + 1)) == Missing;
    forall k ensures Look(files', Backup(k)) == HalfMoved(was, backupCount, i - 1, k) {
      assert Look(files, Backup(k)) == HalfMoved(was, backupCount, i, k);
      assert Look(files, Backup(i)) == HalfMoved(was, backupCount, i, i);
    }
  }

  lemma {:induction false} ComeDownEnd(was: Files, files: Files, backupCount: int, i: int)
    requires backupCount >= 0 && Current in was && i <= 0
    requires ComeDown(was, files, backupCount, i)
    ensures Rotated(was, Rename(files, Current, Backup(1))[Current := []], backupCount)
    ensures Current !in Rename(files, Current, Backup(1))
  {
    assert forall k :: Look(files, Backup(k)) == HalfMoved(was, backupCount, i, k);
  }

  lemma {:induction false} ShelfHead(files: Files, n: nat)
    requires Current in files
    ensures |Shelf(files, n)| == n + 1 && Shelf(files, n)[0] == Present(files[Current])
  {
    assert Shelf(files, n)[0] == Look(files, Current);
  }

  lemma {:induction false} ShelfWritten(files: Files, c: Content, n: nat)
    ensures Shelf(files[Current := c], n) == [Present(c)] + Shelf(files, n)[1..]
  {
    forall i | 0 <= i <= n ensures Shelf(files[Current := c], n)[i] == ([Present(c)] + Shelf(files, n)[1..])[i] {
      assert i > 0 ==> Look(files[Current := c], Backup(i)) == Look(files, Backup(i));
    }
  }

  lemma {:induction false} ShelfRotated(files: Files, files': Files, backupCount: int)
    requires Rotated(files, files', backupCount)
    ensures var n := Kept(backupCount);
      Shelf(files', n) == [Present([])] + Shelf(files, n)[..n]
  {
    var n := Kept(backupCount);
    forall i | 0 <= i <= n ensures Shelf(files', n)[i] == ([Present([])] + Shelf(files, n)[..n])[i] {
      if i > 1 {
        assert Look(files', Backup(i - 1 + 1)) == Look(files, Backup(i - 1));
      }
    }
  }

  lemma {:induction false} RotatedNow(files: Files, files': Files, backupCount: int)
    requires Rotated(files, files', backupCount) && Current in files
    ensures Look(files', Current) == Present([]) && Look(files', Backup(1)) == Present(files[Current])
  {
  }

  class RotateHandler {
    const maxBytes: int
    const backupCount: int
    var isOpen: bool
    var offset: int
    var files: Files

    /** The current file is open and `offset` is its length. */
    predicate Valid()
      reads this
    {
      isOpen && Current in files && offset == |files[Current]|
    }

    /** `haclog_file_rotate_handler_init` in a directory with these files. */
    constructor (files: Files, maxBytes: int, backupCount: int)
      requires backupCount >= 0
      ensures Valid() && this.maxBytes == maxBytes && this.backupCount == backupCount
      ensures
        var existing := if Current in files then files else files[Current := []];
        if |existing[Current]| >= maxBytes then Rotated(existing, this.files, backupCount) else this.files == existing
    {
      this.maxBytes, this.backupCount, this.isOpen := maxBytes, backupCount, true;
      this.files := if Current in files then files else files[Current := []];
      this.offset := if Current in files then |files[Current]| else 0;
      new;
      if this.offset >= this.maxBytes {
        Rotate();
      }
    }

    /** `haclog_file_rotate_handler_rotate` */
    method Rotate()
      requires backupCount >= 0 && Current in files
      modifies this`isOpen, this`offset, this`files
      ensures Valid() && offset == 0 && Rotated(old(files), files, backupCount)
    {
      hide ComeDown, Rotated, Rename, Look, HalfMoved;
      ghost var was := files;
      isOpen := false;
      if Backup(backupCount) in files {
        files := files - {Backup(backupCount)};
      }
      var i := backupCount - 1;
      ComeDownStart(was, files, backupCount);
      while i > 0
        invariant i < backupCount && ComeDown(was, files, backupCount, i)
      {
        ComeDownStep(was, files, backupCount, i);
        files := Rename(files, Backup(i), Backup(i + 1));
        i := i - 1;
      }
      ComeDownEnd(was, files, backupCount, i);
      files := Rename(files, Current, Backup(1));
      if Current !in files {
        files := files[Current := []];
      }
      isOpen := true;
      offset := 0;
    }

    /** `haclog_file_rotate_handler_write` and `_writev`: appends to the current file. */
    method Write(msg: Content) returns (n: int)
      requires Valid()
      modifies this`offset, this`files
      ensures Valid() && n == |msg| && files == old(files)[Current := old(files)[Current] + msg]
    {
      n := 0;
      if isOpen {
        files := files[Current := files[Current] + msg];
        n := |msg|;
        offset := offset + n;
      }
    }

    /** `haclog_file_rotate_handler_after_write` */
    method AfterWrite()
      requires Valid() && backupCount >= 0
      modifies this`isOpen, this`offset, this`files
      ensures Valid()
      ensures
        var written := old(files)[Current := old(files)[Current] + "\n"];
        if |written[Current]| >= maxBytes then Rotated(written, files, backupCount) else files == written
    {
      if isOpen {
        files := files[Current := files[Current] + "\n"];
        offset := offset + 1;
        if offset >= maxBytes {
          Rotate();
        }
      }
    }

    /** `haclog_handler_write` with this handler: the meta information, the message, a newline. */
    method HandlerWrite(meta: Content, msg: Content) returns (total: int)
      requires Valid() && backupCount >= 0
      modifies this`isOpen, this`offset, this`files
      ensures Valid() && total == |meta| + |msg|
      ensures Shelf(files, Kept(backupCount)) ==
        Feed(old(Shelf(files, Kept(backupCount))), meta + msg + "\n", maxBytes)[..Kept(backupCount) + 1]
      ensures
        var now := old(files[Current]) + meta + msg + "\n";
        if |now| >= maxBytes then Look(files, Current) == Present([]) && Look(files, Backup(1)) == Present(now)
        else files == old(files)[Current := now]
    {
      hide Rotated, Shelf, Feed, Look;
      total := 0;
      var n := Write(meta);
      if n > 0 {
        total := total + n;
      }
      if |msg| > 0 {
        n := Write(msg);
        if n > 0 {
          total := total + n;
        }
      }
      ghost var written, shelf := files, old(Shelf(files, Kept(backupCount)));
      AfterWrite();
      ghost var ended := written[Current := written[Current] + "\n"];
      ghost var line := meta + msg + "\n";
      assert ended[Current] == old(files[Current]) + line == old(files[Current]) + meta + msg + "\n";
      assert ended == old(files)[Current := ended[Current]];
      ShelfHead(old(files), Kept(backupCount));
      ShelfWritten(old(files), ended[Current], Kept(backupCount));
      FeedCut(shelf, line, maxBytes);
      if |ended[Current]| >= maxBytes {
        ShelfRotated(ended, files, backupCount);
        RotatedNow(ended, files, backupCount);
      }
    }
  }

  // ------------------------------------------------------------------- runs

  /** The kept files, after any number of messages, are the newest part of the unbounded archive. */
  lemma {:induction false} ShelfOverRun(shelves: seq<seq<File>>, lines: seq<Content>, maxBytes: int, n: nat)
    requires |shelves| == |lines| + 1 && n >= 1 && |shelves[0]| == n
    requires forall i :: 0 <= i < |lines| ==>
      |shelves[i]| == n && shelves[i + 1] == Feed(shelves[i], lines[i], maxBytes)[..n]
    ensures shelves[|lines|] == FeedAll(shelves[0], lines, maxBytes)[..n]
  {
    var k := |lines|;
    if k > 0 {
      ShelfOverRun(shelves[..k], lines[..k - 1], maxBytes, n);
      var archive := FeedAll(shelves[0], lines[..k - 1], maxBytes);
      assert shelves[k - 1 + 1] == Feed(shelves[k - 1], lines[k - 1], maxBytes)[..n];
      assert shelves[k - 1] == archive[..n];
      FeedTruncated(archive, lines[k - 1], maxBytes, n);
    }
  }

  lemma {:induction false} FeedTruncated(archive: seq<File>, line: Content, maxBytes: int, n: nat)
    requires 1 <= n <= |archive|
    ensures Feed(archive[..n], line, maxBytes)[..n] == Feed(archive, line, maxBytes)[..n]
  {
  }

  /** Nothing is lost, doubled or reordered in the archive. */
  lemma {:induction false} HistoryOfFeedAll(archive: seq<File>, lines: seq<Content>, maxBytes: int)
    requires archive != []
    ensures History(FeedAll(archive, lines, maxBytes)) == History(archive) + Concat(lines)
  {
    if lines != [] {
      var k := |lines| - 1;
      HistoryOfFeedAll(archive, lines[..k], maxBytes);
      HistoryOfFeed(FeedAll(archive, lines[..k], maxBytes), lines[k], maxBytes);
    }
  }

  lemma {:induction false} HistoryPush(archive: seq<File>, f: File)
    ensures History([f] + archive) == History(archive) + Text(f)
  {
    assert ([f] + archive)[1..] == archive;
  }

  lemma {:induction false} HistoryOfFeed(archive: seq<File>, line: Content, maxBytes: int)
    requires archive != []
    ensures History(Feed(archive, line, maxBytes)) == History(archive) + line
  {
    hide History;
    var was, rest := Text(archive[0]), archive[1..];
    assert archive == [archive[0]] + rest;
    HistoryPush(rest, archive[0]);
    HistoryPush(rest, Present(was + line));
    HistoryPush([Present(was + line)] + rest, Present([]));
    assert [Present([]), Present(was + line)] + rest == [Present([])] + ([Present(was + line)] + rest);
    assert History(rest) + (was + line) == History(archive) + line;
  }

  /** Where the files of an archive are after one more line. */
  lemma {:induction false} FeedAt(archive: seq<File>, line: Content, maxBytes: int, f: nat)
    requires archive != [] && f < |Feed(archive, line, maxBytes)|
    ensures
      var now := Text(archive[0]) + line;
      Text(Feed(archive, line, maxBytes)[f]) ==
      if |now| >= maxBytes && f == 0 then []
      else
        var g := if |now| >= maxBytes then f - 1 else f;
        if g == 0 then now else Text(archive[g])
    ensures |Feed(archive, line, maxBytes)| == |archive| + (if |Text(archive[0]) + line| >= maxBytes then 1 else 0)
  {
  }

  /** Cutting an archive drops its oldest part. */
  lemma {:induction false} HistoryCut(archive: seq<File>, n: nat)
    requires n <= |archive|
    ensures History(archive) == History(archive[n..]) + History(archive[..n])
  {
    if n > 0 {
      HistoryCut(archive[1..], n - 1);
      assert archive[1..][n - 1..] == archive[n..] && archive[1..][..n - 1] == archive[..n][1..];
    } else {
      assert archive[0..] == archive;
    }
  }

  /** After any number of messages the kept files, read oldest first, are a suffix of what they held at the
      start followed by every line written; what is missing is exactly the files pushed out at the end. */
  lemma {:induction false} HistoryKept(shelves: seq<seq<File>>, lines: seq<Content>, maxBytes: int, n: nat)
    returns (dropped: seq<File>)
    requires |shelves| == |lines| + 1 && n >= 1 && |shelves[0]| == n
    requires forall i :: 0 <= i < |lines| ==>
      |shelves[i]| == n && shelves[i + 1] == Feed(shelves[i], lines[i], maxBytes)[..n]
    ensures History(shelves[0]) + Concat(lines) == History(dropped) + History(shelves[|lines|])
    ensures |dropped| == |FeedAll(shelves[0], lines, maxBytes)| - n
    ensures forall i :: 0 <= i < |dropped| ==> dropped[i] == FeedAll(shelves[0], lines, maxBytes)[n + i]
  {
    ShelfOverRun(shelves, lines, maxBytes, n);
    HistoryOfFeedAll(shelves[0], lines, maxBytes);
    var archive := FeedAll(shelves[0], lines, maxBytes);
    HistoryCut(archive, n);
    dropped := archive[n..];
  }

  /** No line is split: every file of the archive is a run of whole lines, behind what the first file held. */
  lemma {:induction false} WholeLines(archive: seq<File>, lines: seq<Content>, maxBytes: int, f: nat)
    returns (i: nat, j: nat)
    requires archive != [] && f <= |FeedAll(archive, lines, maxBytes)| - |archive|
    ensures i <= j <= |lines|
    ensures
      var all := FeedAll(archive, lines, maxBytes);
      var first := f == |all| - |archive|;
      && Text(all[f]) == (if first then Text(archive[0]) else []) + Concat(lines[i..j])
      && (first ==> i == 0) && (f == 0 ==> j == |lines|)
  {
    hide Feed, Text, Concat, FeedAll;
    FeedAllStep(archive, lines, maxBytes);
    ConcatNone();
    if lines == [] {
      i, j := 0, 0;
      assert lines[0..0] == [];
    } else {
      var k := |lines| - 1;
      var before := FeedAll(archive, lines[..k], maxBytes);
      var rotates := |Text(before[0]) + lines[k]| >= maxBytes;
      FeedAt(before, lines[k], maxBytes, f);
      if rotates && f == 0 {
        i, j := |lines|, |lines|;
        assert lines[i..j] == [];
      } else {
        var g := if rotates then f - 1 else f;
        i, j := WholeLines(archive, lines[..k], maxBytes, g);
        assert lines[..k][i..j] == lines[i..j];
        if g == 0 {
          ConcatGrows(lines, i, k);
          j := k + 1;
        }
      }
    }
  }

  lemma {:induction false} FeedAllStep(archive: seq<File>, lines: seq<Content>, maxBytes: int)
    requires archive != []
    ensures FeedAll(archive, lines, maxBytes) ==
      if lines == [] then archive
      else Feed(FeedAll(archive, lines[..|lines| - 1], maxBytes), lines[|lines| - 1], maxBytes)
  {
  }

  lemma {:induction false} ConcatNone()
    ensures Concat([]) == []
  {
  }

  lemma {:induction false} ConcatGrows(lines: seq<Content>, i: nat, k: nat)
    requires i <= k < |lines|
    ensures Concat(lines[i..k + 1]) == Concat(lines[i..k]) + lines[k]
  {
    assert lines[i..k + 1][..k - i] == lines[i..k];
  }

  /** Between messages the current file is below the limit, and every file closed since the start is not. */
  lemma {:induction false} Sizes(archive: seq<File>, lines: seq<Content>, maxBytes: int, f: nat)
    requires archive != [] && maxBytes > 0 && |Text(archive[0])| < maxBytes
    requires f <= |FeedAll(archive, lines, maxBytes)| - |archive|
    ensures |Text(FeedAll(archive, lines, maxBytes)[f])| < maxBytes <==> f == 0
  {
    if lines != [] {
      var k := |lines| - 1;
      var before := FeedAll(archive, lines[..k], maxBytes);
      var rotates := |Text(before[0]) + lines[k]| >= maxBytes;
      var g := if rotates && f > 0 then f - 1 else f;
      if g <= |before| - |archive| {
        Sizes(archive, lines[..k], maxBytes, g);
      }
    }
  }
}
