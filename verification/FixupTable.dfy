/** The table of fixups at the end of a stream, stored backwards: its first byte is the last one of the stream. */
module FixupTables {
  import opened ByteStrings
  import opened CompressedIntegers

  /** What an entry is until the length it stands for is known. */
  const OPEN: nat := LIMIT - 1

  function Reversed(s: seq<Byte>): (r: seq<Byte>)
    ensures |r| == |s|
  {
    if s == [] then [] else [s[|s| - 1]] + Reversed(s[..|s| - 1])
  }

  lemma {:induction false} ReversedAppend(a: seq<Byte>, b: seq<Byte>)
    ensures Reversed(a + b) == Reversed(b) + Reversed(a)
  {
    if b == [] {
      assert a + b == a;
    } else {
      assert (a + b)[..|a + b| - 1] == a + b[..|b| - 1];
      ReversedAppend(a, b[..|b| - 1]);
    }
  }

  lemma {:induction false} ReversedTwice(s: seq<Byte>)
    ensures Reversed(Reversed(s)) == s
  {
    if s != [] {
      var init, last := s[..|s| - 1], [s[|s| - 1]];
      ReversedTwice(init);
      ReversedAppend(last, Reversed(init));
      assert Reversed(last) == last && s == init + last;
    }
  }

  function Lebs(fixups: seq<nat>): seq<Byte> {
    if fixups == [] then [] else Leb(fixups[0]) + Lebs(fixups[1..])
  }

  function TableBytes(fixups: seq<nat>): seq<Byte> {
    Leb(|fixups|) + Lebs(fixups)
  }

  /** A complete stream. */
  function Seal(bytes: seq<Byte>, fixups: seq<nat>): seq<Byte> {
    bytes + Reversed(TableBytes(fixups))
  }

  function ReadSizes(n: nat, s: seq<Byte>): (r: Outcome<seq<Size>, seq<Byte>>)
    ensures r.Got? ==> |r.rest| <= |s|
  {
    if n == 0 then Got([], s) else
      match ReadLeb(s, 0, 0)
      case Thrown => Thrown
      case Trapped => Trapped
      case Got(first, rest) =>
        ReadShrinks(s, 0, 0);
        match ReadSizes(n - 1, rest)
        case Thrown => Thrown
        case Trapped => Trapped
        case Got(others, end) => Got([first] + others, end)
  }

  lemma {:induction false} ReadShrinks(s: seq<Byte>, shift: nat, result: Size)
    ensures var r := ReadLeb(s, shift, result); r.Got? ==> |r.rest| < |s| && r.rest == s[|s| - |r.rest|..]
    decreases |s|
  {
    if shift < 70 && s != [] && s[0] >= 128 {
      ReadShrinks(s[1..], shift + 7, (result + s[0] % 128 * Pow2(shift)) % LIMIT);
    }
  }

  /** The table, and the bytes before it backwards. */
  function OpenTable(blob: seq<Byte>): Outcome<seq<Size>, seq<Byte>> {
    match ReadLeb(Reversed(blob), 0, 0)
    case Thrown => Thrown
    case Trapped => Trapped
    case Got(n, rest) => ReadSizes(n, rest)
  }

  lemma {:induction false} SizesRead(fixups: seq<nat>, rest: seq<Byte>)
    requires forall i | 0 <= i < |fixups| :: fixups[i] < LIMIT
    ensures ReadSizes(|fixups|, Lebs(fixups) + rest) == Got(fixups, rest)
  {
    hide Leb, ReadLeb;
    if fixups == [] {
      assert Lebs(fixups) + rest == rest;
    } else {
      assert Lebs(fixups) + rest == Leb(fixups[0]) + (Lebs(fixups[1..]) + rest);
      LebRoundTrip(fixups[0], Lebs(fixups[1..]) + rest);
      SizesRead(fixups[1..], rest);
      assert [fixups[0]] + fixups[1..] == fixups;
    }
  }

  /** Opening finds what sealing stored. */
  lemma SealOpens(bytes: seq<Byte>, fixups: seq<nat>)
    requires |fixups| < LIMIT && forall i | 0 <= i < |fixups| :: fixups[i] < LIMIT
    ensures OpenTable(Seal(bytes, fixups)) == Got(fixups, Reversed(bytes))
  {
    hide Leb, ReadLeb, Reversed, Lebs;
    var table, rest := TableBytes(fixups), Reversed(bytes);
    ReversedAppend(bytes, Reversed(table));
    ReversedTwice(table);
    assert table + rest == Leb(|fixups|) + (Lebs(fixups) + rest);
    LebRoundTrip(|fixups|, Lebs(fixups) + rest);
    SizesRead(fixups, rest);
  }

  /** The bytes that the closed entries take. */
  function Weight(fixups: seq<nat>): nat {
    if fixups == [] then 0 else
      Weight(fixups[..|fixups| - 1]) + if fixups[|fixups| - 1] == OPEN then 0 else CompressedSize(fixups[|fixups| - 1])
  }

  lemma {:induction false} WeightAppend(a: seq<nat>, b: seq<nat>)
    ensures Weight(a + b) == Weight(a) + Weight(b)
  {
    hide CompressedSize;
    if b == [] {
      assert a + b == a;
    } else {
      assert (a + b)[..|a + b| - 1] == a + b[..|b| - 1];
      WeightAppend(a, b[..|b| - 1]);
    }
  }

  lemma WeightOpen(fixups: seq<nat>)
    ensures Weight(fixups + [OPEN]) == Weight(fixups)
  {
    hide CompressedSize;
    assert (fixups + [OPEN])[..|fixups|] == fixups;
  }

  lemma WeightClosed(fixups: seq<nat>, i: nat, n: nat)
    requires i < |fixups| && fixups[i] == OPEN && n != OPEN
    ensures Weight(fixups[i := n]) == Weight(fixups) + CompressedSize(n)
  {
    hide CompressedSize;
    var a, b := fixups[..i], fixups[i + 1..];
    assert fixups == a + [OPEN] + b && fixups[i := n] == a + [n] + b;
    WeightAppend(a + [OPEN], b);
    WeightAppend(a, [OPEN]);
    WeightAppend(a + [n], b);
    WeightAppend(a, [n]);
    assert [n][..0] == [] && [OPEN][..0] == [];
  }

  lemma {:induction false} WeightIsLength(fixups: seq<nat>)
    requires forall i | 0 <= i < |fixups| :: fixups[i] != OPEN
    ensures Weight(fixups) == |Lebs(fixups)|
  {
    hide CompressedSize, Leb;
    if fixups != [] {
      WeightIsLength(fixups[1..]);
      SizeIsLength(fixups[0]);
      assert fixups == [fixups[0]] + fixups[1..];
      WeightAppend([fixups[0]], fixups[1..]);
      assert [fixups[0]][..0] == [];
    }
  }

  class FixupTable {
    var fixups: seq<nat>
    var bytes: int

    ghost predicate Valid()
      reads this
    {
      bytes == Weight(fixups)
    }

    constructor ()
      ensures Valid() && fixups == []
    {
      fixups, bytes := [], 0;
    }

    /** An entry that is closed later. */
    method NextFixup() returns (idx: nat)
      requires Valid()
      modifies this
      ensures Valid() && fixups == old(fixups) + [OPEN] && idx == |old(fixups)|
    {
      hide Weight;
      WeightOpen(fixups);
      idx := |fixups|;
      fixups := fixups + [OPEN];
    }

    method Fix(idx: nat, start: nat, last: nat)
      requires Valid() && idx < |fixups| && fixups[idx] == OPEN && start <= last < start + OPEN
      modifies this
      ensures Valid() && fixups == old(fixups)[idx := last - start]
    {
      hide Weight, CompressedSize;
      if fixups[idx] != last - start {
        WeightClosed(fixups, idx, last - start);
        fixups := fixups[idx := last - start];
        bytes := bytes + CompressedSize(last - start);
      }
    }

    method SizeInBytes() returns (n: nat)
      requires Valid() && forall i | 0 <= i < |fixups| :: fixups[i] != OPEN
      ensures n == |TableBytes(fixups)|
    {
      hide CompressedSize, Leb, Lebs, Weight;
      SizeIsLength(|fixups|);
      WeightIsLength(fixups);
      n := bytes + CompressedSize(|fixups|);
    }

    /** Writes a size from position `it` on, counted from the end of `blob` backwards. */
    static method PutSize(blob: seq<Byte>, it: nat, value: nat) returns (blob2: seq<Byte>, it2: nat)
      requires it + |Leb(value)| <= |blob|
      ensures it2 == it + |Leb(value)| && |blob2| == |blob|
      ensures blob2 == blob[..|blob| - it2] + Reversed(Leb(value)) + blob[|blob| - it..]
    {
      hide Reversed;
      var temp := value;
      blob2, it2 := blob, it;
      ghost var done: seq<Byte> := [];
      NothingReversed();
      while temp >= 128
        invariant |blob2| == |blob| && it2 == it + |done| && done + Leb(temp) == Leb(value)
        invariant blob2 == blob[..|blob| - it2] + Reversed(done) + blob[|blob| - it..]
        decreases temp
      {
        var b: Byte := temp % 128 + 128;
        OneReversed(done, b);
        blob2 := blob2[|blob2| - 1 - it2 := b];
        it2 := it2 + 1;
        done := done + [b];
        temp := temp / 128;
      }
      OneReversed(done, temp);
      blob2 := blob2[|blob2| - 1 - it2 := temp];
      it2 := it2 + 1;
      assert done + [temp] == Leb(value);
    }

    /** Writes the table backwards into the end of `blob`. */
    method Write(blob: seq<Byte>) returns (blob2: seq<Byte>, it: nat)
      requires |TableBytes(fixups)| <= |blob|
      ensures it == |TableBytes(fixups)| && blob2 == blob[..|blob| - it] + Reversed(TableBytes(fixups))
    {
      hide Reversed, Leb;
      ghost var done := Leb(|fixups|);
      assert TableBytes(fixups) == done + Lebs(fixups);
      assert fixups[0..] == fixups;
      blob2, it := PutSize(blob, 0, |fixups|);
      for i := 0 to |fixups|
        invariant it == |done| && |blob2| == |blob| && done + Lebs(fixups[i..]) == TableBytes(fixups)
        invariant blob2 == blob[..|blob| - it] + Reversed(done)
      {
        assert fixups[i..][1..] == fixups[i + 1..];
        assert done + Leb(fixups[i]) + Lebs(fixups[i + 1..]) == TableBytes(fixups);
        ReversedAppend(done, Leb(fixups[i]));
        ghost var before := blob2;
        blob2, it := PutSize(blob2, it, fixups[i]);
        assert before[|before| - |done|..] == Reversed(done);
        assert before[..|blob| - it] == blob[..|blob| - it];
        done := done + Leb(fixups[i]);
      }
      assert done == TableBytes(fixups);
    }

    /** Reads a size from position `it` on, counted from the end of `blob` backwards. */
    static method GetSize(blob: seq<Byte>, it: nat) returns (r: Outcome<Size, nat>)
      requires it <= |blob|
      ensures match ReadLeb(Reversed(blob[..|blob| - it]), 0, 0)
        case Thrown => r == Thrown
        case Trapped => r == Trapped
        case Got(n, rest) =>
          r.Got? && r.value == n && it < r.rest <= |blob| && Reversed(blob[..|blob| - r.rest]) == rest
    {
      hide Pow2;
      var result: Size, shift, at := 0, 0, it;
      var more := true;
      while more
        invariant it <= at <= |blob| && 0 <= shift && (!more ==> at > it)
        invariant var left := Reversed(blob[..|blob| - at]);
          ReadLeb(Reversed(blob[..|blob| - it]), 0, 0) == if more then ReadLeb(left, shift, result)
            else Got(result, left)
        decreases more, |blob| - at
      {
        if shift >= 70 || at == |blob| {
          return Thrown;
        }
        var b := blob[|blob| - 1 - at];
        FirstReversed(blob[..|blob| - at]);
        assert blob[..|blob| - at][..|blob| - at - 1] == blob[..|blob| - at - 1];
        result := (result + b % 128 * Pow2(shift)) % LIMIT;
        shift, at, more := shift + 7, at + 1, b >= 128;
      }
      return Got(result, at);
    }

    /** Reads the table off the end of `blob`; what remains are the bytes up to position `end`. */
    method Read(blob: seq<Byte>) returns (r: Outcome<nat, ()>)
      modifies this
      ensures match OpenTable(blob)
        case Thrown => r == Thrown
        case Trapped => r == Trapped
        case Got(table, rest) => r.Got? && fixups == table && r.value <= |blob| && Reversed(blob[..r.value]) == rest
    {
      hide ReadLeb, Reversed;
      assert blob[..|blob| - 0] == blob;
      var size := GetSize(blob, 0);
      if !size.Got? {
        return if size.Thrown? then Thrown else Trapped;
      }
      var it: nat := size.rest;
      var read: seq<Size> := [];
      ghost var n, start := size.value, Reversed(blob[..|blob| - it]);
      NonePrepended(ReadSizes(n, start));
      for i := 0 to size.value
        invariant it <= |blob| && |read| == i && n == size.value
        invariant ReadSizes(n, start) == Prepended(read, ReadSizes(n - i, Reversed(blob[..|blob| - it])))
      {
        MorePrepended(read, n - i, Reversed(blob[..|blob| - it]));
        var f := GetSize(blob, it);
        if !f.Got? {
          return if f.Thrown? then Thrown else Trapped;
        }
        it, read := f.rest, read + [f.value];
      }
      fixups := read;
      bytes := it - CompressedSize(size.value);
      return Got(|blob| - it, ());
    }
  }

  lemma NothingReversed()
    ensures Reversed([]) == []
  {
  }

  lemma OneReversed(done: seq<Byte>, b: Byte)
    ensures Reversed(done + [b]) == [b] + Reversed(done)
  {
    assert (done + [b])[..|done|] == done;
  }

  lemma FirstReversed(s: seq<Byte>)
    requires s != []
    ensures Reversed(s) != [] && Reversed(s)[0] == s[|s| - 1] && Reversed(s)[1..] == Reversed(s[..|s| - 1])
  {
  }

  function Prepended(read: seq<Size>, r: Outcome<seq<Size>, seq<Byte>>): Outcome<seq<Size>, seq<Byte>> {
    match r
    case Got(v, rest) => Got(read + v, rest)
    case Thrown => Thrown
    case Trapped => Trapped
  }

  lemma NonePrepended(r: Outcome<seq<Size>, seq<Byte>>)
    ensures Prepended([], r) == r
  {
    if r.Got? {
      assert [] + r.value == r.value;
    }
  }

  lemma MorePrepended(read: seq<Size>, n: nat, s: seq<Byte>)
    requires n > 0
    ensures Prepended(read, ReadSizes(n, s)) == match ReadLeb(s, 0, 0)
      case Thrown => Thrown
      case Trapped => Trapped
      case Got(f, rest) => Prepended(read + [f], ReadSizes(n - 1, rest))
  {
    hide ReadLeb;
    var r := ReadLeb(s, 0, 0);
    if r.Got? && ReadSizes(n - 1, r.rest).Got? {
      var others := ReadSizes(n - 1, r.rest).value;
      assert read + ([r.value] + others) == read + [r.value] + others;
    }
  }
}
