/** Records in a temporary file, read back through a buffer that is refilled before it holds less than one. */
module TempFileBuffers {
  import opened Basics
  import opened ByteStrings

  /** `Overrun` is reading past the memory of the buffer. */
  datatype ReadResult = NoMore | Found(entry: Entry) | Overrun

  const MAX_RECORD: nat := 512

  function EntryBytes(e: Entry): (r: seq<Byte>)
    ensures 2 <= |r| <= MAX_RECORD
  {
    [|e.key|] + e.key + [|e.value|] + e.value
  }

  function FileBytes(entries: seq<Entry>): seq<Byte> {
    if entries == [] then [] else EntryBytes(entries[0]) + FileBytes(entries[1..])
  }

  lemma {:induction false} FileBytesAppend(entries: seq<Entry>, e: Entry)
    ensures FileBytes(entries + [e]) == FileBytes(entries) + EntryBytes(e)
  {
    hide EntryBytes;
    if entries == [] {
      assert ([] + [e])[1..] == [];
    } else {
      assert (entries + [e])[1..] == entries[1..] + [e];
      FileBytesAppend(entries[1..], e);
    }
  }

  lemma FirstEntry(left: seq<Entry>, inBuffer: seq<Byte>, inFile: seq<Byte>)
    requires left != [] && inBuffer + inFile == FileBytes(left) && (|inBuffer| >= MAX_RECORD || inFile == [])
    ensures var n := |EntryBytes(left[0])|;
      n <= |inBuffer| && inBuffer[..n] == EntryBytes(left[0]) && inBuffer[n..] + inFile == FileBytes(left[1..])
  {
    hide EntryBytes;
    var all, n := inBuffer + inFile, |EntryBytes(left[0])|;
    assert inFile == [] ==> all == inBuffer;
    assert all[..n] == EntryBytes(left[0]) && all[n..] == FileBytes(left[1..]);
    assert inBuffer[..n] == all[..n] && inBuffer[n..] + inFile == all[n..];
  }

  /** What is found at position `p` of a buffer, be it the start of a record or not. */
  function ParseAt(bytes: seq<Byte>, p: nat): ReadResult {
    if p >= |bytes| || p + 1 + bytes[p] >= |bytes| then Overrun else
      var n, m := bytes[p], bytes[p + 1 + bytes[p]];
      if p + 2 + n + m > |bytes| then Overrun
      else Found(Entry(bytes[p + 1..p + 1 + n], bytes[p + 2 + n..p + 2 + n + m]))
  }

  /** A buffer after it was filled with the beginning of a file. */
  function Refilled(file: seq<Byte>, bytes: seq<Byte>): (r: seq<Byte>)
    ensures |r| == |bytes|
  {
    if |file| >= |bytes| then file[..|bytes|] else file + bytes[|file|..]
  }

  class TempFileBuffer {
    var file: seq<Byte>
    var filePos: nat
    const buffer: array<Byte>
    var bufferPos: nat
    var bufferEnd: nat

    ghost predicate Safe()
      reads this
    {
      buffer.Length >= MAX_RECORD && filePos <= |file| && bufferPos <= buffer.Length && bufferEnd <= buffer.Length
    }

    ghost predicate Valid()
      reads this
    {
      Safe() && bufferPos <= bufferEnd
    }

    /** What is left to read. */
    ghost function Left(): seq<Byte>
      requires Valid()
      reads this, buffer
    {
      buffer[bufferPos..bufferEnd] + file[filePos..]
    }

    /** Nothing was read yet. */
    ghost predicate Writing(entries: seq<Entry>)
      reads this, buffer
    {
      Valid() && file == FileBytes(entries) && filePos == |file| && bufferPos == 0
    }

    /** What is left to read is in the buffer and in the file behind it; either everything is in the buffer or
        at least one record. */
    ghost predicate Reading(left: seq<Entry>)
      reads this, buffer
    {
      && Valid() && Left() == FileBytes(left)
      && (bufferEnd < buffer.Length ==> filePos == |file|)
      && (bufferEnd == buffer.Length ==> bufferEnd - bufferPos >= MAX_RECORD)
    }

    constructor (bufferSize: nat)
      requires bufferSize >= MAX_RECORD
      ensures Writing([]) && fresh(buffer) && buffer.Length == bufferSize
    {
      file, filePos := [], 0;
      buffer := new Byte[bufferSize](_ => 0);
      bufferPos, bufferEnd := 0, bufferSize;
    }

    /** Puts a byte string into the buffer. */
    method ToStream(s: ByteString, pos: nat) returns (end: nat)
      requires pos + 1 + |s| <= buffer.Length
      modifies buffer
      ensures end == pos + 1 + |s| && buffer[..pos] == old(buffer[..pos]) && buffer[pos..end] == [|s|] + s
    {
      buffer[pos] := |s|;
      for i := 0 to |s|
        modifies buffer
        invariant buffer[..pos] == old(buffer[..pos]) && buffer[pos..pos + 1 + i] == [|s|] + s[..i]
      {
        buffer[pos + 1 + i] := s[i];
        assert buffer[pos..pos + 1 + i + 1] == buffer[pos..pos + 1 + i] + [s[i]];
      }
      end := pos + 1 + |s|;
      assert s[..|s|] == s;
    }

    method Write(e: Entry, ghost entries: seq<Entry>)
      requires Writing(entries)
      modifies this`file, this`filePos, buffer
      ensures Writing(entries + [e])
    {
      var pos := ToStream(e.key, 0);
      ghost var key := buffer[..pos];
      assert key == [|e.key|] + e.key;
      pos := ToStream(e.value, pos);
      assert buffer[..pos] == key + ([|e.value|] + e.value);
      assert buffer[..pos] == EntryBytes(e);
      FileBytesAppend(entries, e);
      file := file + buffer[..pos];
      filePos := |file|;
    }

    /** Reads up to `count` bytes of the file into the buffer. */
    method FRead(pos: nat, count: nat) returns (n: nat)
      requires filePos <= |file| && pos + count <= buffer.Length
      modifies this`filePos, buffer
      ensures n == (if count <= |file| - old(filePos) then count else |file| - old(filePos))
      ensures filePos == old(filePos) + n
      ensures buffer[..pos] == old(buffer[..pos]) && buffer[pos..pos + n] == file[old(filePos)..filePos]
      ensures buffer[pos + n..] == old(buffer[pos + n..])
    {
      n := if count <= |file| - filePos then count else |file| - filePos;
      for i := 0 to n
        modifies buffer
        invariant forall k | 0 <= k < buffer.Length ::
          buffer[k] == if pos <= k < pos + i then file[filePos + (k - pos)] else old(buffer[k])
      {
        buffer[pos + i] := file[filePos + i];
      }
      ghost var x, y := buffer[pos..pos + n], file[filePos..filePos + n];
      assert |x| == |y| && forall k | 0 <= k < |x| :: x[k] == y[k];
      filePos := filePos + n;
    }

    /** Goes back to the beginning of the file, but not of the buffer: what is left to read is what the file holds
        from the old position in the buffer on. That is the whole file if and only if that position is zero. */
    method Rewind()
      requires Safe()
      modifies this`filePos, this`bufferEnd, buffer
      ensures Safe() && buffer[..] == Refilled(file, old(buffer[..]))
      ensures filePos == bufferEnd == Least(buffer.Length, |file|)
      ensures bufferPos <= bufferEnd ==> Left() == file[bufferPos..] && (Left() == file <==> bufferPos == 0)
    {
      filePos := 0;
      bufferEnd := FRead(0, buffer.Length);
      ghost var bytes := buffer[..];
      assert bytes[..bufferEnd] == buffer[..bufferEnd] == buffer[0..bufferEnd];
      assert buffer[0..bufferEnd] == file[0..bufferEnd] == file[..bufferEnd];
      assert bytes == bytes[..bufferEnd] + bytes[bufferEnd..] && bytes[bufferEnd..] == buffer[bufferEnd..];
      if bufferPos <= bufferEnd {
        LeftFrom(bytes, file, bufferPos, bufferEnd);
        assert bytes[bufferPos..bufferEnd] == buffer[bufferPos..bufferEnd];
      }
    }

    /** Starts to read at the position the buffer is at. That is the beginning of the file only if nothing was read
        before or the position happens to be zero again. */
    method StartReading(ghost left: seq<Entry>) returns (r: ReadResult)
      requires Safe()
      modifies this`filePos, this`bufferPos, this`bufferEnd, buffer
      ensures file == old(file) && (r != Overrun ==> Safe())
      ensures var p, end := old(bufferPos), Least(buffer.Length, |file|);
        r == if p == end then NoMore else ParseAt(Refilled(file, old(buffer[..])), p)
      ensures var p := old(bufferPos);
        (p <= |file| && file[p..] == FileBytes(left) && (|file| < buffer.Length || buffer.Length - p >= MAX_RECORD))
        ==> Next(r, left)
      ensures r == NoMore ==> bufferPos == bufferEnd == Least(buffer.Length, |file|)
      ensures var end := Least(buffer.Length, |file|);
        r.Found? ==> Refills(old(bufferPos) + |EntryBytes(r.entry)|, end, end)
    {
      Rewind();
      r := Read(left);
    }

    /** The result of reading with these records left. */
    ghost predicate Next(r: ReadResult, left: seq<Entry>)
      reads this, buffer
    {
      if left == [] then r == NoMore && Reading([]) else r == Found(left[0]) && Reading(left[1..])
    }

    /** The positions after the next record was asked for with the buffer at `q`, filled up to `end`, and the file
        at `pos`. */
    ghost predicate Refills(q: nat, end: nat, pos: nat)
      reads this
    {
      if end < buffer.Length || buffer.Length - q >= MAX_RECORD
      then bufferPos == q && bufferEnd == end && filePos == pos
      else (
        && bufferPos == 0 && pos <= |file| && filePos == pos + Least(q, |file| - pos)
        && bufferEnd == end - q + Least(q, |file| - pos)
      )
    }

    /** The next record: it is completely in the buffer as long as what is left begins with a record. */
    method Read(ghost left: seq<Entry>) returns (r: ReadResult)
      requires Safe()
      modifies this`filePos, this`bufferPos, this`bufferEnd, buffer
      ensures file == old(file) && (r != Overrun ==> Safe())
      ensures r == if old(bufferPos) == old(bufferEnd) then NoMore else ParseAt(old(buffer[..]), old(bufferPos))
      ensures old(Reading(left)) ==> Next(r, left)
      ensures r.Found? ==> Refills(old(bufferPos) + |EntryBytes(r.entry)|, old(bufferEnd), old(filePos))
      ensures !r.Found? ==> bufferPos == old(bufferPos) && bufferEnd == old(bufferEnd) && filePos == old(filePos)
    {
      hide EntryBytes, FileBytes;
      ghost var reading := Reading(left);
      if bufferPos == bufferEnd {
        if reading {
          NothingLeft(left);
        }
        return NoMore;
      }
      ghost var bytes, inBuffer, inFile := buffer[..], if reading then buffer[bufferPos..bufferEnd]
        else [], file[filePos..];
      if reading {
        SomethingLeft(left);
        FirstEntry(left, inBuffer, inFile);
        Found0(bytes, bufferPos, bufferEnd, left[0]);
      }
      r := Parse();
      if r.Found? {
        assert reading ==> buffer[bufferPos..bufferEnd] == inBuffer[|EntryBytes(left[0])|..];
        Reload(reading, if reading then left[1..] else []);
      }
    }

    /** The record at the current position, if what is there does not lead past the buffer. */
    method Parse() returns (r: ReadResult)
      requires Safe()
      modifies this`bufferPos
      ensures Safe() && r == ParseAt(buffer[..], old(bufferPos))
      ensures bufferPos == old(bufferPos) + if r.Found? then |EntryBytes(r.entry)| else 0
    {
      hide EntryBytes;
      if bufferPos >= buffer.Length || bufferPos + 1 + buffer[bufferPos] >= buffer.Length {
        return Overrun;
      }
      var key, pos := FromStream(bufferPos);
      if pos + 1 + buffer[pos] > buffer.Length {
        return Overrun;
      }
      var value;
      value, pos := FromStream(pos);
      bufferPos := pos;
      r := Found(Entry(key, value));
      EntryLength(Entry(key, value));
    }

    lemma NothingLeft(left: seq<Entry>)
      requires Reading(left) && bufferPos == bufferEnd
      ensures left == []
    {
      assert Left() == [];
    }

    lemma SomethingLeft(left: seq<Entry>)
      requires Reading(left) && bufferPos != bufferEnd
      ensures left != []
    {
      assert |Left()| > 0;
    }

    method FromStream(pos: nat) returns (s: ByteString, end: nat)
      requires pos < buffer.Length && pos + 1 + buffer[pos] <= buffer.Length
      ensures end == pos + 1 + buffer[pos] && s == buffer[pos + 1..end]
    {
      end := pos + 1 + buffer[pos];
      s := buffer[pos + 1..end];
    }

    /** Moves what is left to the front. */
    method MoveDown()
      requires Valid()
      modifies buffer
      ensures buffer[..bufferEnd - bufferPos] == old(buffer[bufferPos..bufferEnd])
    {
      ghost var rest := buffer[bufferPos..bufferEnd];
      for i := 0 to bufferEnd - bufferPos
        modifies buffer
        invariant buffer[..i] == rest[..i] && buffer[bufferPos + i..bufferEnd] == rest[i..]
      {
        assert buffer[bufferPos + i] == buffer[bufferPos + i..bufferEnd][0] == rest[i];
        ghost var later := buffer[bufferPos + i + 1..bufferEnd];
        assert later == buffer[bufferPos + i..bufferEnd][1..];
        buffer[i] := buffer[bufferPos + i];
        assert buffer[bufferPos + i + 1..bufferEnd] == later;
        assert buffer[..i + 1] == buffer[..i] + [rest[i]];
      }
    }

    /** With less than a record before the end of a full buffer, moves that to the front and reads on. */
    method Reload(ghost reading: bool, ghost left: seq<Entry>)
      requires Safe() && (bufferEnd == buffer.Length ==> Valid())
      requires reading ==> Valid() && Left() == FileBytes(left) && (bufferEnd < buffer.Length ==> filePos == |file|)
      modifies this`filePos, this`bufferPos, this`bufferEnd, buffer
      ensures Safe() && (reading ==> Reading(left))
      ensures var q, end, pos := old(bufferPos), old(bufferEnd), old(filePos);
        Refills(q, end, pos)
    {
      hide FileBytes;
      if bufferEnd < buffer.Length || buffer.Length - bufferPos >= MAX_RECORD {
        return;
      }
      ghost var rest := buffer[bufferPos..bufferEnd];
      var kept := bufferEnd - bufferPos;
      MoveDown();
      ghost var unread := file[filePos..];
      var n := FRead(kept, bufferPos);
      bufferPos := 0;
      bufferEnd := kept + n;
      assert buffer[..kept + n] == buffer[..kept] + buffer[kept..kept + n];
      assert buffer[kept..kept + n] + file[filePos..] == unread;
      assert Left() == rest + unread;
    }
  }

  lemma EntryLength(e: Entry)
    ensures |EntryBytes(e)| == 2 + |e.key| + |e.value|
  {
  }

  /** A record in the buffer is what is found there. */
  lemma Found0(bytes: seq<Byte>, p: nat, end: nat, e: Entry)
    requires p <= end <= |bytes| && |EntryBytes(e)| <= end - p && bytes[p..end][..|EntryBytes(e)|] == EntryBytes(e)
    ensures ParseAt(bytes, p) == Found(e)
  {
    var n, m := |e.key|, |e.value|;
    EntryParts(e, bytes[p..end]);
    assert bytes[p] == n && bytes[p + (1 + n)] == m;
    PartOf(bytes, p, end, 1, 1 + n);
    PartOf(bytes, p, end, 2 + n, 2 + n + m);
  }

  lemma PartOf(all: seq<Byte>, lo: nat, hi: nat, i: nat, j: nat)
    requires lo <= hi <= |all| && i <= j <= hi - lo
    ensures all[lo..hi][i..j] == all[lo + i..lo + j]
  {
    var part, x, y := all[lo..hi], all[lo..hi][i..j], all[lo + i..lo + j];
    assert |x| == |y|;
    forall k | 0 <= k < |x| ensures x[k] == y[k] {
      assert x[k] == part[i + k] == all[lo + (i + k)];
    }
  }

  lemma EntryParts(e: Entry, bytes: seq<Byte>)
    requires |EntryBytes(e)| <= |bytes| && bytes[..|EntryBytes(e)|] == EntryBytes(e)
    ensures var n, m := |e.key|, |e.value|;
      && |EntryBytes(e)| == 2 + n + m && bytes[0] == n && bytes[1 + n] == m
      && bytes[1..1 + n] == e.key && bytes[2 + n..2 + n + m] == e.value
  {
    var b, n, m := EntryBytes(e), |e.key|, |e.value|;
    assert b[1..1 + n] == e.key && b[2 + n..2 + n + m] == e.value;
    assert bytes[..|b|][0] == bytes[0] && bytes[..|b|][1 + n] == bytes[1 + n];
    assert bytes[..|b|][1..1 + n] == bytes[1..1 + n];
    assert bytes[..|b|][2 + n..2 + n + m] == bytes[2 + n..2 + n + m];
  }

  method WriteAll(entries: seq<Entry>, bufferSize: nat) returns (temp: TempFileBuffer)
    requires bufferSize >= MAX_RECORD
    ensures fresh(temp) && fresh(temp.buffer) && temp.buffer.Length == bufferSize && temp.Writing(entries)
  {
    hide FileBytes, EntryBytes;
    temp := new TempFileBuffer(bufferSize);
    for i := 0 to |entries|
      invariant fresh(temp) && fresh(temp.buffer) && temp.buffer.Length == bufferSize && temp.Writing(entries[..i])
    {
      temp.Write(entries[i], entries[..i]);
      assert entries[..i + 1] == entries[..i] + [entries[i]];
    }
    assert entries[..|entries|] == entries;
  }

  /** Reads from the beginning until there is no more. */
  method ReadAll(temp: TempFileBuffer, ghost entries: seq<Entry>) returns (r: seq<Entry>)
    requires temp.Safe() && temp.file == FileBytes(entries) && temp.bufferPos == 0
    modifies temp, temp.buffer
    ensures r == entries && temp.file == old(temp.file) && temp.Reading([])
    ensures |temp.file| < temp.buffer.Length ==> temp.bufferPos == temp.bufferEnd == |temp.file|
  {
    hide FileBytes, EntryBytes;
    r := [];
    assert temp.file[0..] == temp.file;
    var next := temp.StartReading(entries);
    while next.Found?
      invariant |r| <= |entries| && r == entries[..|r|] && temp.Next(next, entries[|r|..])
      invariant temp.file == old(temp.file)
      invariant |temp.file| < temp.buffer.Length ==> temp.bufferEnd == |temp.file|
      decreases |entries| - |r|
    {
      assert entries[..|r| + 1] == entries[..|r|] + [entries[|r|]];
      assert entries[|r|..][0] == entries[|r|] && entries[|r|..][1..] == entries[|r| + 1..];
      r := r + [next.entry];
      next := temp.Read(entries[|r|..]);
    }
    NoBytes();
    assert |temp.Left()| == 0;
  }

  lemma LeftFrom(bytes: seq<Byte>, file: seq<Byte>, p: nat, end: nat)
    requires p <= end <= |bytes| && end <= |file| && bytes[..end] == file[..end]
    ensures var left := bytes[p..end] + file[end..]; left == file[p..] && (left == file <==> p == 0)
  {
    var a, b, c := bytes[..end], bytes[p..end], file[p..];
    assert |b| == end - p && forall i | 0 <= i < end - p :: b[i] == a[p + i] == file[..end][p + i] == c[i];
    assert |b + file[end..]| == |file| - p;
    assert file[0..] == file;
  }

  lemma NoBytes()
    ensures FileBytes([]) == []
  {
  }

  /** Whatever was written comes back, record by record and in order. */
  method ReadBack(entries: seq<Entry>, bufferSize: nat) returns (r: seq<Entry>)
    requires bufferSize >= MAX_RECORD
    ensures r == entries
  {
    var temp := WriteAll(entries, bufferSize);
    r := ReadAll(temp, entries);
  }

  /** Read to its end and started again, a file smaller than the buffer has nothing in it. */
  method ReadTwice(entries: seq<Entry>, bufferSize: nat) returns (again: ReadResult)
    requires bufferSize >= MAX_RECORD && |FileBytes(entries)| < bufferSize
    ensures again == NoMore
  {
    hide FileBytes;
    var temp := WriteAll(entries, bufferSize);
    var _ := ReadAll(temp, entries);
    again := temp.StartReading([]);
  }

  /** That the record found looks like the first one does not mean that reading started with the first one. */
  method ReadEqual(e: Entry) returns (first: ReadResult, again: ReadResult, left: nat)
    ensures first == again == Found(e) && left < |FileBytes([e, e])| - |EntryBytes(e)|
  {
    hide FileBytes, EntryBytes;
    var temp := WriteAll([e, e], 2 * MAX_RECORD + 1);
    TwoBytes(e);
    assert temp.file[0..] == temp.file && [e, e][1..] == [e] && [e][1..] == [];
    first := temp.StartReading([e, e]);
    again := temp.StartReading([e]);
    left := temp.bufferEnd - temp.bufferPos;
  }

  lemma TwoBytes(e: Entry)
    ensures FileBytes([e, e]) == EntryBytes(e) + FileBytes([e]) && FileBytes([e]) == EntryBytes(e)
    ensures FileBytes([e, e])[|EntryBytes(e)|..] == FileBytes([e])
  {
    hide EntryBytes;
    assert [e, e][1..] == [e] && [e][1..] == [];
  }

  function Zeros(n: nat): (r: seq<Byte>)
    ensures |r| == n && forall i | 0 <= i < n :: r[i] == 0
  {
    seq(n, _ => 0)
  }

  /** Three records that fill the smallest buffer. */
  function Three(): seq<Entry> {
    [Entry([1], [1]), Entry(Zeros(252), []), Entry([2], Zeros(251))]
  }

  /** The position where reading stopped was one in a buffer that had been moved; in the file it is not the start
      of a record. Started again, reading finds a record that nobody wrote. */
  method ReadMidway() returns (again: ReadResult)
    ensures again == Found(Entry([], [])) && Entry([], []) !in Three()
  {
    hide FileBytes, EntryBytes;
    var temp := WriteAll(Three(), MAX_RECORD);
    ThreeBytes();
    assert temp.file[0..] == temp.file;
    var first := temp.StartReading(Three());
    var second := temp.Read(Three()[1..]);
    again := temp.StartReading([]);
  }

  lemma ThreeBytes()
    ensures var file := FileBytes(Three());
      |file| == MAX_RECORD && ParseAt(file, 254) == Found(Entry([], []))
    ensures forall i | 0 <= i < 3 :: |EntryBytes(Three()[i])| == [4, 254, 254][i]
  {
    var e := Three();
    var a, b, c := EntryBytes(e[0]), EntryBytes(e[1]), EntryBytes(e[2]);
    var file := FileBytes(e);
    assert e[1..] == [e[1], e[2]] && e[1..][1..] == [e[2]] && e[1..][1..][1..] == [];
    assert FileBytes([e[2]]) == c + [] && FileBytes(e[1..]) == b + FileBytes([e[2]]);
    assert file == a + (b + (c + []));
    assert file[254] == b[250] == 0 && file[255] == b[251] == 0;
    assert file[255..255] == [] && file[256..256] == [];
  }
}
