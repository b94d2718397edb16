/** The string table of a record: the offset stored with every `%s` is where its string is copied. */
module StringTable {
  import opened Bytes
  import opened PrintfSpec
  import opened Codec
  import opened Serializer

  /** The strings of the first `i` specifications are the first strings, and fill the chunk up to the cursor. */
  lemma {:induction false} StringsBefore(specs: seq<Spec>, args: seq<Arg>, i: nat) returns (before: seq<seq<byte>>)
    requires WellTypedAll(specs, args) && i <= |specs|
    ensures var c := CursorAt(specs, args, i);
      && |before| == c.nStr && SlotSizes(before) == c.extra
      && Strings(specs, args, 0) == before + Strings(specs[i..], args[i..], c.nStr)
  {
    hide SlotSize, Copied, Strings, SlotSizes, WellTyped, CursorAt, Advance;
    CursorStep(specs, args, i);
    if i == 0 {
      before := [];
      SlotsNone();
      assert specs[0..] == specs && args[0..] == args;
    } else {
      var c := CursorAt(specs, args, i - 1);
      before := StringsBefore(specs, args, i - 1);
      before := StringsOneMore(specs, args, i - 1, c, before);
    }
  }

  lemma {:induction false} CursorStep(specs: seq<Spec>, args: seq<Arg>, i: nat)
    requires WellTypedAll(specs, args) && i <= |specs|
    ensures CursorAt(specs, args, i) ==
      if i == 0 then Cursor(0, 0) else Advance(specs[i - 1], args[i - 1], CursorAt(specs, args, i - 1))
  {
  }

  lemma {:induction false} StringsOneMore(specs: seq<Spec>, args: seq<Arg>, i: nat, c: Cursor, before: seq<seq<byte>>)
    returns (now: seq<seq<byte>>)
    requires WellTypedAll(specs, args) && i < |specs| && |before| == c.nStr && SlotSizes(before) == c.extra
    ensures var d := Advance(specs[i], args[i], c);
      && |now| == d.nStr && SlotSizes(now) == d.extra
      && before + Strings(specs[i..], args[i..], c.nStr) == now + Strings(specs[i + 1..], args[i + 1..], d.nStr)
  {
    hide SlotSize, Copied, Strings, SlotSizes, WellTyped;
    ConstStep(specs, args, i, c);
    var added: seq<seq<byte>> := if specs[i].fmtType.STR? then [Copied(specs[i], args[i], c.nStr)] else [];
    now := before + added;
    SlotSizesAppend(before, added);
    SlotsNone();
    Assoc(before, added, Strings(specs[i + 1..], args[i + 1..], Advance(specs[i], args[i], c).nStr));
  }

  /** The slots tile the chunk: slot `k` begins where the ones before it end, the rest follows, and the
      string with its NUL is inside its own slot. */
  lemma {:induction false} SlotsTile(ss: seq<seq<byte>>, k: nat)
    requires k < |ss|
    ensures var off, n := SlotSizes(ss[..k]), SlotSize(|ss[k]|);
      && off + n + SlotSizes(ss[k + 1..]) == SlotSizes(ss)
      && StrCells(ss)[off..off + n] == Slot(ss[k])
      && |ss[k]| < n && Slot(ss[k])[|ss[k]|] == Val(0)
      && off % 8 == 0
  {
    hide SlotSize, StrCells, SlotSizes, Slot;
    assert ss == ss[..k] + ss[k..];
    SlotSizesAppend(ss[..k], ss[k..]);
    StrCellsAppend(ss[..k], ss[k..]);
    SlotsStep(ss, k);
    StrCellsHead(ss[k..]);
    assert ss[k..][1..] == ss[k + 1..];
    SlotEnds(ss[k]);
    SlotsAligned(ss[..k]);
  }

  lemma {:induction false} SlotEnds(s: seq<byte>)
    ensures |s| < SlotSize(|s|) && Slot(s)[|s|] == Val(0)
  {
  }

  /** For every `%s`, however many precede it: the offset stored in the fixed-size chunk is the place of its
      slot in the string chunk, which lies inside the chunk and holds the copied string. */
  lemma {:induction false} StoredOffset(specs: seq<Spec>, args: seq<Arg>, i: nat)
    requires WellTypedAll(specs, args) && i < |specs| && specs[i].fmtType.STR?
    ensures var c := CursorAt(specs, args, i);
      var s, ss := Copied(specs[i], args[i], c.nStr), Strings(specs, args, 0);
      && ValueCells(specs[i], args[i], c) == IntCells(c.extra, 8)
      && c.nStr < |ss| && ss[c.nStr] == s && c.extra == SlotSizes(ss[..c.nStr])
      && c.extra + SlotSize(|s|) <= ExtraLen(specs, args) == |StrCells(ss)|
      && StrCells(ss)[c.extra..c.extra + SlotSize(|s|)] == Slot(s)
      && (c.nStr >= MAX_STR_CACHE ==> s == STR_CACHE_FULL)
  {
    hide SlotSize, StrCells, SlotSizes, Slot, Strings, IntCells, CursorAt;
    var c, ss := CursorAt(specs, args, i), Strings(specs, args, 0);
    var before := StringsBefore(specs, args, i);
    ConstStep(specs, args, i, c);
    assert ss[c.nStr] == Strings(specs[i..], args[i..], c.nStr)[0];
    assert ss[..c.nStr] == before;
    SlotsTile(ss, c.nStr);
  }
}
