/** `haclog_path_normpath`: a character loop that writes the result in place and, on "..", scans back over
    what it wrote; against resolving the path's segments with a stack. Separators are '/' and '\'. */
module NormPath {
  import opened CString

  predicate IsSep(c: char) {
    c == '/' || c == '\\'
  }

  datatype Result = Ok(path: seq<char>) | Err

  // -------------------------------------------------- resolution by segments

  /** A segment and the separator behind it (NUL behind the last one). */
  datatype Segment = Segment(text: seq<char>, sep: char)

  /** The length of the first segment. */
  function FirstLen(s: seq<char>): (n: nat)
    ensures n <= |s| && forall i :: 0 <= i < n ==> !IsSep(s[i])
    ensures n < |s| ==> IsSep(s[n])
  {
    if s == [] || IsSep(s[0]) then 0 else 1 + FirstLen(s[1..])
  }

  function Split(s: seq<char>): (segs: seq<Segment>)
    ensures segs != []
    decreases |s|
  {
    var n := FirstLen(s);
    if n == |s| then [Segment(s, '\0')] else [Segment(s[..n], s[n])] + Split(s[n + 1..])
  }

  /** The text has two dots in a row. */
  predicate DoubleDot(s: seq<char>) {
    exists i :: 0 <= i < |s| - 1 && s[i] == '.' && s[i + 1] == '.'
  }

  datatype Stack = Stack(segs: seq<Segment>) | Bad

  /** One segment. ".." pops what it can, and stays where there is nothing above it; it may not climb above
      a leading separator, and may not be part of a longer segment. */
  function Push(st: seq<Segment>, seg: Segment): Stack {
    if seg.text == ".." then
      if st == [] || st[|st| - 1].text == ".." then Stack(st + [seg])
      else if |st| == 1 && st[0].text == "" then Bad
      else Stack(st[..|st| - 1])
    else if DoubleDot(seg.text) then Bad
    else Stack(st + [seg])
  }

  function Resolve(st: seq<Segment>, segs: seq<Segment>): Stack
    decreases |segs|
  {
    if segs == [] then Stack(st)
    else
      var next := Push(st, segs[0]);
      if next.Bad? then Bad else Resolve(next.segs, segs[1..])
  }

  /** The segments with the separators behind them. */
  function Flat(st: seq<Segment>): seq<char> {
    if st == [] then []
    else
      var z := st[|st| - 1];
      Flat(st[..|st| - 1]) + z.text + (if z.sep == '\0' then [] else [z.sep])
  }

  /** A leading "./" or ".\" of the path is dropped. */
  function Start(path: seq<char>): (n: nat)
    ensures n <= |path|
  {
    if |path| >= 2 && path[0] == '.' && IsSep(path[1]) then 2 else 0
  }

  /** What the function should answer for a path and the size of the result buffer. */
  function Normal(path: seq<char>, size: nat): Result {
    if |path| >= size then Err
    else
      var st := Resolve([], Split(path[Start(path)..]));
      if st.Bad? then Err
      else if Flat(st.segs) == "" then (if size <= 2 then Err else Ok("./"))
      else Ok(Flat(st.segs))
  }

  // ------------------------------------------------------- character machine

  /** Where the back-scan stops: behind the last separator of `out`, or at 0. */
  function BehindSep(out: seq<char>): (n: nat)
    ensures n <= |out|
    ensures forall i :: n <= i < |out| ==> !IsSep(out[i])
    ensures n > 0 ==> IsSep(out[n - 1])
  {
    if out == [] || IsSep(out[|out| - 1]) then |out| else BehindSep(out[..|out| - 1])
  }

  predicate EndsUp(out: seq<char>) {
    |out| >= 3 && out[|out| - 3] == '.' && out[|out| - 2] == '.' && IsSep(out[|out| - 1])
  }

  datatype Machine = Done(out: seq<char>) | Stopped

  /** What a ".." makes of what is written; `c` is the character behind it. */
  function Climb(out: seq<char>, c: char): Machine {
    if out == [] || EndsUp(out) then Done(out + ['.', '.', c])
    else if !IsSep(out[|out| - 1]) || |out| < 2 then Stopped
    else Done(out[..BehindSep(out[..|out| - 1])])
  }

  /** What the loop has written when the cursor is at the start of `rest`. */
  function Loop(rest: seq<char>, out: seq<char>): Machine
    decreases |rest|
  {
    if rest == [] then Done(out)
    else if rest[0] == '.' && At(rest, 1) == '.' then
      if At(rest, 2) != '\0' && !IsSep(At(rest, 2)) then Stopped
      else
        var up := Climb(out, At(rest, 2));
        if up.Stopped? then Stopped else Loop(rest[if |rest| > 2 then 3 else 2..], up.out)
    else Loop(rest[1..], out + [rest[0]])
  }

  // ------------------------------------- the machine resolves by segments

  /** Segments as the machine keeps them: closed by a separator, free of separators and stray double dots. */
  predicate Closed(st: seq<Segment>) {
    forall i :: 0 <= i < |st| ==>
      && IsSep(st[i].sep)
      && (forall j :: 0 <= j < |st[i].text| ==> !IsSep(st[i].text[j]))
      && (st[i].text == ".." || !DoubleDot(st[i].text))
  }

  predicate TopUp(st: seq<Segment>) {
    st != [] && st[|st| - 1].text == ".."
  }

  lemma {:induction false} FlatPush(st: seq<Segment>, seg: Segment)
    ensures Flat(st + [seg]) == Flat(st) + seg.text + (if seg.sep == '\0' then [] else [seg.sep])
  {
    assert (st + [seg])[..|st|] == st;
  }

  /** What the machine sees of the stack. */
  lemma {:induction false} FlatTop(st: seq<Segment>)
    requires Closed(st) && st != []
    ensures
      var below, text := Flat(st[..|st| - 1]), st[|st| - 1].text;
      && Flat(st) == below + text + [st[|st| - 1].sep]
      && (below == [] || IsSep(below[|below| - 1]))
      && (below == [] <==> |st| == 1)
  {
    var front := st[..|st| - 1];
    if front != [] {
      assert IsSep(front[|front| - 1].sep);
    }
  }

  lemma {:induction false} BehindSepText(below: seq<char>, text: seq<char>)
    requires below == [] || IsSep(below[|below| - 1])
    requires forall j :: 0 <= j < |text| ==> !IsSep(text[j])
    ensures BehindSep(below + text) == |below|
  {
    var out := below + text;
    assert below != [] ==> out[|below| - 1] == below[|below| - 1];
    assert forall j :: 0 <= j < |text| ==> out[|below| + j] == text[j];
    assert forall i :: |below| <= i < |out| ==> out[i] == text[i - |below|];
  }

  lemma {:induction false} EndsUpText(below: seq<char>, text: seq<char>, sep: char)
    requires (below == [] || IsSep(below[|below| - 1])) && IsSep(sep)
    requires forall j :: 0 <= j < |text| ==> !IsSep(text[j])
    requires text == ".." || !DoubleDot(text)
    ensures EndsUp(below + text + [sep]) <==> text == ".."
  {
    var out, n, m := below + text + [sep], |below|, |text|;
    assert out[n + m] == sep && (m >= 1 ==> out[n + m - 1] == text[m - 1]) && (m >= 2 ==> out[n + m - 2] == text[m - 2]);
    assert n > 0 ==> out[n - 1] == below[n - 1];
    assert m >= 2 && text[m - 2] == '.' && text[m - 2 + 1] == '.' ==> DoubleDot(text);
  }

  lemma {:induction false} EndsUpIff(st: seq<Segment>)
    requires Closed(st) && st != []
    ensures Flat(st) != [] && (EndsUp(Flat(st)) <==> TopUp(st))
    ensures |Flat(st)| < 2 <==> |st| == 1 && st[0].text == ""
    ensures IsSep(Flat(st)[|Flat(st)| - 1])
  {
    hide Flat, EndsUp, DoubleDot;
    FlatTop(st);
    var below, z, out := Flat(st[..|st| - 1]), st[|st| - 1], Flat(st);
    assert IsSep(z.sep);
    EndsUpText(below, z.text, z.sep);
    assert out[|out| - 1] == z.sep;
  }

  /** Popping is cutting back to behind the last separator but one. */
  lemma {:induction false} PopFlat(st: seq<Segment>)
    requires Closed(st) && st != []
    ensures var out := Flat(st); out[..BehindSep(out[..|out| - 1])] == Flat(st[..|st| - 1])
  {
    FlatTop(st);
    var below, text, out := Flat(st[..|st| - 1]), st[|st| - 1].text, Flat(st);
    assert out[..|out| - 1] == below + text;
    BehindSepText(below, text);
  }

  lemma {:induction false} DoubleDotLater(text: seq<char>)
    requires text != [] && DoubleDot(text[1..])
    ensures DoubleDot(text)
  {
    var i :| 0 <= i < |text| - 2 && text[1..][i] == '.' && text[1..][i + 1] == '.';
    assert text[i + 1] == '.' && text[i + 1 + 1] == '.';
  }

  /** Text without a double dot is copied. */
  lemma {:induction false} Plain(text: seq<char>, tail: seq<char>, out: seq<char>)
    requires !DoubleDot(text) && (tail == [] || IsSep(tail[0]))
    ensures Loop(text + tail, out) == Loop(tail, out + text)
    decreases |text|
  {
    if text == [] {
      assert text + tail == tail && out + text == out;
    } else {
      var rest := text + tail;
      assert !(rest[0] == '.' && At(rest, 1) == '.') by {
        assert |text| > 1 ==> !(text[0] == '.' && text[0 + 1] == '.');
      }
      assert rest[1..] == text[1..] + tail;
      assert out + text == (out + [text[0]]) + text[1..];
      if DoubleDot(text[1..]) {
        DoubleDotLater(text);
      }
      Plain(text[1..], tail, out + [text[0]]);
    }
  }

  /** A double dot inside a longer segment stops the machine. */
  lemma {:induction false} Broken(text: seq<char>, tail: seq<char>, out: seq<char>)
    requires DoubleDot(text) && (tail == [] || IsSep(tail[0]))
    requires forall j :: 0 <= j < |text| ==> !IsSep(text[j]) && text[j] != '\0'
    requires text == ".." ==> out != [] && !IsSep(out[|out| - 1])
    ensures Loop(text + tail, out) == Stopped
    decreases |text|
  {
    var rest := text + tail;
    if text[0] == '.' && text[1] == '.' {
      assert |text| == 2 ==> text == "..";
      assert |text| > 2 ==> At(rest, 2) == text[2];
    } else {
      assert rest[1..] == text[1..] + tail;
      var i :| 0 <= i < |text| - 1 && text[i] == '.' && text[i + 1] == '.';
      assert text[1..][i - 1] == '.' && text[1..][i - 1 + 1] == '.';
      Broken(text[1..], tail, out + [text[0]]);
    }
  }

  /** What the machine leaves behind for a resolved stack: a kept ".." at the end carries its NUL along. */
  function Left(st: seq<Segment>): seq<char> {
    Flat(st) + (if TopUp(st) && st[|st| - 1].sep == '\0' then ['\0'] else [])
  }

  function Outcome(st: Stack): Machine {
    if st.Bad? then Stopped else Done(Left(st.segs))
  }

  /** One turn of the loop at a "..". */
  lemma {:induction false} LoopUp(rest: seq<char>, out: seq<char>)
    requires |rest| >= 2 && rest[..2] == ".." && (|rest| == 2 || IsSep(rest[2]))
    ensures
      var up := Climb(out, At(rest, 2));
      Loop(rest, out) == if up.Stopped? then Stopped else Loop(rest[if |rest| > 2 then 3 else 2..], up.out)
  {
    assert rest[..2][0] == '.' && rest[..2][1] == '.';
    assert rest[0] == '.' && At(rest, 1) == '.';
  }

  /** A ".." segment does to the written text what `Push` does to the stack. */
  lemma {:induction false} MachineUp(rest: seq<char>, st: seq<Segment>)
    requires Closed(st) && |rest| >= 2 && rest[..2] == ".." && (|rest| == 2 || IsSep(rest[2]))
    ensures
      var rest' := rest[if |rest| > 2 then 3 else 2..];
      var next := Push(st, Segment("..", At(rest, 2)));
      Loop(rest, Flat(st)) ==
      if next.Bad? then Stopped
      else if st == [] || TopUp(st) then Loop(rest', Flat(st) + ['.', '.', At(rest, 2)])
      else Loop(rest', Flat(next.segs))
  {
    hide Loop, EndsUp, BehindSep, Closed, Flat;
    LoopUp(rest, Flat(st));
    if st == [] {
      FlatNone();
    } else {
      EndsUpIff(st);
      PopFlat(st);
    }
  }

  lemma {:induction false} FlatNone()
    ensures Flat([]) == []
  {
  }

  lemma {:induction false} ClosedPush(st: seq<Segment>, seg: Segment)
    requires Closed(st) && IsSep(seg.sep) && (forall j :: 0 <= j < |seg.text| ==> !IsSep(seg.text[j]))
    requires Push(st, seg).Stack?
    ensures Closed(Push(st, seg).segs)
  {
    hide DoubleDot;
  }

  /** One closed segment takes the machine from one stack to the next. */
  lemma {:induction false} MachineStep(text: seq<char>, sep: char, rest: seq<char>, st: seq<Segment>)
    requires Closed(st) && IsCString(text) && (forall j :: 0 <= j < |text| ==> !IsSep(text[j])) && IsSep(sep)
    ensures var next := Push(st, Segment(text, sep));
      var m := Loop(text + ([sep] + rest), Flat(st));
      if next.Bad? then m == Stopped else m == Loop(rest, Flat(next.segs))
  {
    hide Loop, EndsUp, BehindSep, Closed, Flat, DoubleDot;
    var s, out, seg := text + ([sep] + rest), Flat(st), Segment(text, sep);
    FlatPush(st, seg);
    if text == ".." {
      assert s[..2] == ".." && s[3..] == rest && At(s, 2) == sep;
      assert out + ['.', '.', sep] == out + text + [sep];
      MachineUp(s, st);
    } else if DoubleDot(text) {
      Broken(text, [sep] + rest, out);
    } else {
      Plain(text, [sep] + rest, out);
      assert ([sep] + rest)[1..] == rest;
      LoopCopy([sep] + rest, out + text);
    }
  }

  lemma {:induction false} LoopCopy(rest: seq<char>, out: seq<char>)
    requires rest != [] && !(rest[0] == '.' && At(rest, 1) == '.')
    ensures Loop(rest, out) == Loop(rest[1..], out + [rest[0]])
  {
  }

  lemma {:induction false} LoopStops(rest: seq<char>, out: seq<char>)
    requires |rest| > 2 && rest[0] == '.' && rest[1] == '.' && rest[2] != '\0' && !IsSep(rest[2])
    ensures Loop(rest, out) == Stopped
  {
  }

  lemma {:induction false} LoopEnd(out: seq<char>)
    ensures Loop([], out) == Done(out)
  {
  }

  lemma {:induction false} TopClosed(st: seq<Segment>)
    requires Closed(st) && st != []
    ensures st[|st| - 1].sep != '\0' && (|st| > 1 ==> st[|st| - 2].sep != '\0')
  {
  }

  lemma {:induction false} MachineEnd(text: seq<char>, st: seq<Segment>)
    requires Closed(st) && IsCString(text) && (forall j :: 0 <= j < |text| ==> !IsSep(text[j]))
    ensures Loop(text, Flat(st)) == Outcome(Push(st, Segment(text, '\0')))
  {
    hide Loop, EndsUp, BehindSep, Closed, Flat, DoubleDot;
    var out, seg := Flat(st), Segment(text, '\0');
    FlatPush(st, seg);
    if text == ".." {
      assert text[..2] == ".." && text[2..] == [] && At(text, 2) == '\0';
      MachineUp(text, st);
      if st != [] {
        TopClosed(st);
      }
      var next := Push(st, seg);
      if next.Stack? {
        LoopEnd(Flat(next.segs));
        LoopEnd(out + ['.', '.', '\0']);
        assert out + ['.', '.', '\0'] == Flat(st + [seg]) + ['\0'];
      }
    } else {
      assert text + [] == text;
      if DoubleDot(text) {
        Broken(text, [], out);
      } else {
        Plain(text, [], out);
        LoopEnd(out + text);
      }
    }
  }

  /** The loop over the characters comes to what the stack of segments comes to. */
  lemma {:induction false} LoopResolves(rest: seq<char>, st: seq<Segment>)
    requires Closed(st) && IsCString(rest)
    ensures Loop(rest, Flat(st)) == Outcome(Resolve(st, Split(rest)))
    decreases |rest|
  {
    hide Loop, Push, Closed, Flat, Split, Left;
    var n := FirstLen(rest);
    SplitIs(rest);
    if n == |rest| {
      MachineEnd(rest, st);
      ResolveOne(st, Segment(rest, '\0'));
    } else {
      var text, tail := rest[..n], rest[n + 1..];
      assert rest == text + ([rest[n]] + tail);
      MachineStep(text, rest[n], tail, st);
      var next := Push(st, Segment(text, rest[n]));
      assert Split(rest)[1..] == Split(tail);
      if next.Stack? {
        ClosedPush(st, Segment(text, rest[n]));
        LoopResolves(tail, next.segs);
      }
    }
  }

  lemma {:induction false} SplitIs(s: seq<char>)
    ensures var n := FirstLen(s);
      Split(s) == if n == |s| then [Segment(s, '\0')] else [Segment(s[..n], s[n])] + Split(s[n + 1..])
  {
  }

  lemma {:induction false} ResolveOne(st: seq<Segment>, seg: Segment)
    ensures Resolve(st, [seg]) == Push(st, seg)
  {
    hide Push;
    assert [seg][1..] == [];
  }

  // ------------------------------------------------------------------ bounds

  predicate AllUp(segs: seq<Segment>) {
    forall i :: 0 <= i < |segs| ==> segs[i].text == ".."
  }

  lemma {:induction false} LeftPush(st: seq<Segment>, text: seq<char>)
    requires Closed(st)
    ensures var next := Push(st, Segment(text, '\0'));
      next.Stack? ==>
        && |Flat(next.segs)| <= |Flat(st)| + |text| && |Left(next.segs)| <= |Flat(st)| + |text| + 1
        && (|Left(next.segs)| == |Flat(st)| + |text| + 1 <==> text == ".." && (st == [] || TopUp(st)))
  {
    hide DoubleDot;
    FlatPush(st, Segment(text, '\0'));
    if st != [] {
      FlatTop(st);
      TopClosed(st);
    }
  }

  lemma {:induction false} FlatLength(st: seq<Segment>, seg: Segment)
    requires Closed(st) && IsSep(seg.sep)
    ensures var next := Push(st, seg);
      next.Stack? ==>
        if seg.text != ".." || st == [] || TopUp(st) then
          && |Flat(next.segs)| == |Flat(st)| + |seg.text| + 1
          && next.segs != [] && (TopUp(next.segs) <==> seg.text == "..")
        else |Flat(next.segs)| < |Flat(st)|
  {
    hide DoubleDot;
    FlatPush(st, seg);
    if st != [] {
      FlatTop(st);
    }
  }

  /** The machine leaves at most one character more than it has read, and that only when it popped nothing
      and met nothing but "..". */
  lemma {:induction false} LeftLength(rest: seq<char>, st: seq<Segment>)
    requires Closed(st)
    ensures var r := Resolve(st, Split(rest));
      r.Stack? ==>
        && |Flat(r.segs)| <= |Flat(st)| + |rest| && |Left(r.segs)| <= |Flat(st)| + |rest| + 1
        && (|Left(r.segs)| == |Flat(st)| + |rest| + 1 <==> AllUp(Split(rest)) && (st == [] || TopUp(st)))
    decreases |rest|
  {
    hide Push, Closed, Flat, Split, Left, TopUp;
    var n := FirstLen(rest);
    SplitIs(rest);
    if n == |rest| {
      LeftPush(st, rest);
      ResolveOne(st, Segment(rest, '\0'));
    } else {
      var seg, tail := Segment(rest[..n], rest[n]), rest[n + 1..];
      var next := Push(st, seg);
      assert Split(rest)[1..] == Split(tail);
      assert AllUp(Split(rest)) <==> seg.text == ".." && AllUp(Split(tail));
      FlatLength(st, seg);
      if next.Stack? {
        ClosedPush(st, seg);
        LeftLength(tail, next.segs);
      }
    }
  }

  /** The call writes one character past a buffer of `size`. */
  predicate Overruns(path: seq<char>, size: nat) {
    size == |path| + 1 && AllUp(Split(path))
  }

  /** The guard lets such a call through: "..", which resolves to itself, in a buffer of 3. */
  lemma {:induction false} OverrunHappens()
    ensures Normal("..", 3) == Ok("..") && Overruns("..", 3)
  {
    var p := "..";
    assert FirstLen(p[1..]) == 1 && FirstLen(p) == 2;
    assert Split(p) == [Segment(p, '\0')];
    assert p[Start(p)..] == p;
    var st := Resolve([], Split(p));
    assert st == Stack([Segment(p, '\0')]) by {
      ResolveOne([], Segment(p, '\0'));
    }
    FlatPush([], Segment(p, '\0'));
    FlatNone();
    assert Flat([Segment(p, '\0')]) == p by {
      assert [] + [Segment(p, '\0')] == [Segment(p, '\0')];
    }
  }

  /** In a resolved path every ".." comes before everything else. */
  predicate UpsFirst(st: seq<Segment>) {
    forall i, j :: 0 <= i < j < |st| && st[j].text == ".." ==> st[i].text == ".."
  }

  lemma {:induction false} ResolvedUpsFirst(st: seq<Segment>, segs: seq<Segment>)
    requires UpsFirst(st)
    ensures Resolve(st, segs).Stack? ==> UpsFirst(Resolve(st, segs).segs)
    decreases |segs|
  {
    hide DoubleDot;
    if segs != [] && Push(st, segs[0]).Stack? {
      ResolvedUpsFirst(Push(st, segs[0]).segs, segs[1..]);
    }
  }

  // ------------------------------------------------------------- the function

  /** `haclog_path_isabs` */
  predicate IsAbs(path: seq<char>) {
    || (|path| > 1 && path[0] == '/')
    || (|path| > 2 && ('a' <= path[0] <= 'z' || 'A' <= path[0] <= 'Z') && path[1] == ':' && IsSep(path[2]))
  }

  predicate StartsWith(s: seq<char>, prefix: seq<char>) {
    prefix <= s
  }

  /** The machine's verdict on a whole path, in terms of `Normal`. */
  lemma {:induction false} MachineNormal(path: seq<char>, size: nat)
    requires IsCString(path) && |path| < size
    ensures
      var m, r := Loop(path[Start(path)..], []), Normal(path, size);
      && (m.Stopped? ==> r == Err)
      && (m.Done? ==>
            && |m.out| <= |path| + 1 && (|m.out| == |path| + 1 <==> AllUp(Split(path)))
            && (m.out == [] ==> r == if size <= 2 then Err else Ok("./"))
            && (m.out != [] ==> r.Ok? && |r.path| <= |path| && (m.out == r.path || m.out == r.path + ['\0'])
                                && (|m.out| == |path| + 1 ==> m.out == r.path + ['\0'])))
  {
    var rest := path[Start(path)..];
    hide Loop, Resolve, Split, AllUp, Push, Flat;
    FlatNone();
    LoopResolves(rest, []);
    LeftLength(rest, []);
    if Start(path) == 2 {
      DotFirst(path);
    } else {
      assert rest == path;
    }
  }

  lemma {:induction false} DotFirst(path: seq<char>)
    requires Start(path) == 2
    ensures !AllUp(Split(path))
  {
    assert FirstLen(path) == 1 by {
      assert path[1..] != [];
    }
    assert Split(path)[0].text == path[..1];
  }

  /** The back-scan from index `i` of what was written. */
  method BackScan(ret: array<char>, start: int) returns (pos: nat)
    requires 0 <= start < ret.Length
    ensures pos == BehindSep(ret[..start + 1])
  {
    var i := start;
    while i >= 0
      invariant -1 <= i <= start && BehindSep(ret[..i + 1]) == BehindSep(ret[..start + 1])
    {
      if IsSep(ret[i]) {
        break;
      }
      assert ret[..i + 1][..i] == ret[..i];
      i := i - 1;
    }
    pos := i + 1;
  }

  lemma {:induction false} Ahead(path: seq<char>, cursor: nat, k: nat)
    requires cursor <= |path|
    ensures At(path[cursor..], k) == At(path, cursor + k)
  {
  }

  /** The loop's branch for a ".."; `c` is the character behind it. */
  method ClimbInPlace(ret: array<char>, pos: nat, c: char) returns (ok: bool, next: nat)
    requires pos + 2 < ret.Length
    modifies ret
    ensures ok <==> Climb(old(ret[..pos]), c).Done?
    ensures ok ==> next <= pos + 3 && ret[..next] == Climb(old(ret[..pos]), c).out
    ensures forall i :: pos + 3 <= i < ret.Length ==> ret[i] == old(ret[i])
  {
    hide BehindSep;
    ghost var out := ret[..pos];
    assert EndsUp(out) <==> pos >= 3 && ret[pos - 3] == '.' && ret[pos - 2] == '.' && IsSep(ret[pos - 1]);
    next := pos;
    if pos == 0 || (pos >= 3 && ret[pos - 3] == '.' && ret[pos - 2] == '.' && IsSep(ret[pos - 1])) {
      ret[pos], ret[pos + 1], ret[pos + 2] := '.', '.', c;
      next := pos + 3;
      assert ret[..next] == out + ['.', '.', c];
    } else {
      if !IsSep(ret[pos - 1]) {
        return false, next;
      }
      if pos - 2 < 0 {
        return false, next;
      }
      assert out[..|out| - 1] == ret[..pos - 1];
      next := BackScan(ret, pos - 2);
      assert ret[..next] == out[..next];
    }
    ok := true;
  }

  /** What follows the loop. */
  method Finish(ret: array<char>, pos: nat, size: nat) returns (ok: bool)
    requires pos <= size < ret.Length
    modifies ret
    ensures ok <==> pos > 0 || size > 2
    ensures pos > 0 ==> ret[..pos] == old(ret[..pos]) && ret[pos] == '\0'
    ensures pos == 0 && ok ==> ret[..2] == "./" && ret[2] == '\0'
    ensures forall i :: size <= i < ret.Length && i != pos ==> ret[i] == old(ret[i])
  {
    var p := pos;
    if p == 0 {
      if size <= 2 {
        return false;
      }
      ret[0], ret[1] := '.', '/';
      p := 2;
    }
    ret[p] := '\0';
    ok := true;
  }

  /** The loop of `haclog_path_normpath`. */
  method Walk(path: seq<char>, start: nat, ret: array<char>, size: nat) returns (ok: bool, pos: nat)
    requires IsCString(path) && start <= |path| < size < ret.Length
    modifies ret
    ensures ok <==> Loop(path[start..], []).Done?
    ensures ok ==> pos <= |path| + 1 && ret[..pos] == Loop(path[start..], []).out
    ensures forall i :: size <= i < ret.Length ==> ret[i] == old(ret[i])
  {
    hide Loop, Climb;
    pos := 0;
    var cursor := start;
    ghost var m := Loop(path[cursor..], []);
    while At(path, cursor) != '\0'
      invariant 0 <= cursor <= |path| && 0 <= pos && (pos <= cursor || (cursor == |path| && pos <= |path| + 1))
      invariant m == Loop(path[cursor..], ret[..pos])
      invariant forall i :: size <= i < ret.Length ==> ret[i] == old(ret[i])
      decreases |path| - cursor
    {
      ghost var was, rest, out := cursor, path[cursor..], ret[..pos];
      Ahead(path, cursor, 1);
      Ahead(path, cursor, 2);
      if path[cursor] == '.' && At(path, cursor + 1) == '.' {
        if At(path, cursor + 2) != '\0' && At(path, cursor + 2) != '/' && At(path, cursor + 2) != '\\' {
          LoopStops(rest, out);
          return false, pos;
        }
        LoopUp(rest, out);
        cursor := cursor + 2;
        var climbed;
        climbed, pos := ClimbInPlace(ret, pos, At(path, cursor));
        if !climbed {
          return false, pos;
        }
      } else {
        LoopCopy(rest, out);
        ret[pos] := path[cursor];
        pos := pos + 1;
        assert ret[..pos] == out + [rest[0]];
      }
      if At(path, cursor) != '\0' {
        cursor := cursor + 1;
      }
      assert path[cursor..] == rest[cursor - was..];
    }
    assert path[cursor..] == [];
    LoopEnd(ret[..pos]);
    ok := true;
  }

  /** `haclog_path_normpath`; `ret` is larger than the `size` it is said to have, so that a write behind
      the end shows. It happens exactly for a path of nothing but "..", in a buffer of the least size. */
  method Normpath(path: seq<char>, ret: array<char>, size: nat) returns (ok: bool)
    requires IsCString(path) && ret.Length > size
    modifies ret
    ensures ok <==> Normal(path, size).Ok?
    ensures ok ==>
      && var out := Normal(path, size).path;
      && |out| < size && ret[..|out|] == out && ret[|out|] == '\0'
    ensures forall i :: size < i < ret.Length ==> ret[i] == old(ret[i])
    ensures if ok && Overruns(path, size) then ret[size] == '\0' else ret[size] == old(ret[size])
  {
    hide Loop, Normal, AllUp, Split;
    var start := 0;
    if |path| >= size {
      TooLong(path, size);
      return false;
    }
    if !IsAbs(path) {
      if StartsWith(path, "./") || StartsWith(path, ".\\") {
        start := start + 2;
      }
    }
    MachineNormal(path, size);
    var pos;
    ok, pos := Walk(path, start, ret, size);
    if !ok {
      return;
    }
    ok := Finish(ret, pos, size);
  }

  lemma {:induction false} TooLong(path: seq<char>, size: nat)
    requires |path| >= size
    ensures Normal(path, size) == Err
  {
  }
}
