/** Writing values into a stream and reading them from it. */
module Streams {
  import opened ByteStrings
  import opened CompressedIntegers
  import opened FixupTables
  import opened StreamRules
  import opened SchemaEvolution

  class StreamOut {
    var blob: seq<Byte>
    const table: FixupTable

    ghost predicate Valid()
      reads this, table
    {
      table.Valid()
    }

    /** What was written so far. */
    ghost function Written(): Code
      reads this, table
    {
      Code(blob, table.fixups)
    }

    constructor ()
      ensures Valid() && fresh(table) && Written() == NOTHING
    {
      blob := [];
      table := new FixupTable();
    }

    method WriteSize(value: nat)
      requires Valid()
      modifies this`blob
      ensures Valid() && Written() == Join(old(Written()), Code(Leb(value), []))
    {
      var temp := value;
      while temp >= 128
        invariant Valid() && blob + Leb(temp) == old(blob) + Leb(value)
        decreases temp
      {
        blob := blob + [temp % 128 + 128];
        temp := temp / 128;
      }
      blob := blob + [temp];
    }

    method Write(s: Schema, v: Value)
      requires Valid() && Proper(s) && HasType(s, v) && |blob| + |Encode(s, v).bytes| < OPEN
      modifies this`blob, table
      ensures Valid() && Written() == Join(old(Written()), Encode(s, v))
      decreases s, 3
    {
      hide EncodeBody, HasType, Proper;
      if Versioned(s) {
        WriteFramed(s, v);
      } else {
        WriteBody(s, v);
      }
    }

    /** The body, and when its length is known its fixup and the number of fixups. */
    method WriteFramed(s: Schema, v: Value)
      requires Valid() && Proper(s) && HasType(s, v) && |blob| + |EncodeBody(s, v).bytes| < OPEN
      modifies this`blob, table
      ensures Valid() && Written() == Join(old(Written()), Framed(EncodeBody(s, v)))
      decreases s, 2
    {
      hide EncodeBody, Leb, HasType, Proper, Weight;
      ghost var before, body := Written(), EncodeBody(s, v);
      var topIndex := |table.fixups|;
      var start := |blob|;
      var idx := table.NextFixup();
      WriteBody(s, v);
      assert table.fixups == before.fixups + [OPEN] + body.fixups && blob == before.bytes + body.bytes;
      table.Fix(idx, start, |blob|);
      WriteSize(|table.fixups| - topIndex);
      Closes(before, body, Written());
    }

    method WriteBody(s: Schema, v: Value)
      requires Valid() && Proper(s) && HasType(s, v) && |blob| + |EncodeBody(s, v).bytes| < OPEN
      modifies this`blob, table
      ensures Valid() && Written() == Join(old(Written()), EncodeBody(s, v))
      decreases s, 1
    {
      hide Leb;
      match s
      case Bits(_, _) => blob := blob + v.bytes;
      case Record(_, types) => WriteAll(types, v.members);
      case Pair(_, types) => WriteAll(types, v.members);
      case Array(_, _, elem) => WriteRange(elem, v.members);
      case BuiltinArray(_, _, elem) => WriteRange(elem, v.members);
      case Container(_, _, elem) =>
        WriteSize(|v.elems|);
        JoinThree(old(Written()), Code(Leb(|v.elems|), []), EncodeList(elem, v.elems));
        WriteRange(elem, v.elems);
      case Variant(_, types) =>
        assert types[v.index] in types;
        WriteSize(v.index);
        JoinThree(old(Written()), Code(Leb(v.index), []), Encode(types[v.index], v.chosen));
        Write(types[v.index], v.chosen);
      case Optional(_, elem) =>
        blob := blob + [if v.Present? then 1 else 0];
        if v.Present? {
          JoinThree(old(Written()), Code([1], []), Encode(elem, v.some));
          Write(elem, v.some);
        }
    }

    /** The members of a record or a pair. */
    method WriteAll(types: seq<Schema>, vs: seq<Value>)
      requires Valid() && (forall t | t in types :: Proper(t)) && HaveTypes(types, vs)
      requires |blob| + |EncodeAll(types, vs).bytes| < OPEN
      modifies this`blob, table
      ensures Valid() && Written() == Join(old(Written()), EncodeAll(types, vs))
      decreases types, 0
    {
      hide Encode, HasType, Proper;
      ghost var all := Join(Written(), EncodeAll(types, vs));
      for i := 0 to |types|
        invariant Valid() && HaveTypes(types[i..], vs[i..]) && Join(Written(), EncodeAll(types[i..], vs[i..])) == all
      {
        AllStep(types, vs, i, Written());
        Write(types[i], vs[i]);
      }
      NoneLeft(types[|types|..], vs[|types|..], Written());
    }

    method WriteRange(elem: Schema, vs: seq<Value>)
      requires Valid() && Proper(elem) && (forall v | v in vs :: HasType(elem, v))
      requires |blob| + |EncodeList(elem, vs).bytes| < OPEN
      modifies this`blob, table
      ensures Valid() && Written() == Join(old(Written()), EncodeList(elem, vs))
      decreases elem, 4
    {
      hide Encode, HasType, Proper;
      ghost var all := Join(Written(), EncodeList(elem, vs));
      for i := 0 to |vs|
        invariant Valid() && Join(Written(), EncodeList(elem, vs[i..])) == all
      {
        ListStep(elem, vs, i, Written());
        Write(elem, vs[i]);
      }
      NoneListed(elem, vs[|vs|..], Written());
    }

    /** The complete stream: the fixups go to its end. */
    method SwapBlob() returns (r: seq<Byte>)
      requires Valid() && forall i | 0 <= i < |table.fixups| :: table.fixups[i] != OPEN
      modifies this`blob
      ensures r == Seal(old(blob), table.fixups) && blob == []
    {
      hide Reversed, TableBytes;
      var size := table.SizeInBytes();
      var grown := blob + seq(size, _ => 0);
      var it;
      r, it := table.Write(grown);
      assert grown[..|grown| - it] == blob;
      blob := [];
    }
  }

  class StreamIn {
    const blob: seq<Byte>
    const table: FixupTable
    var first: nat
    var last: nat
    var current: nat

    ghost predicate Valid()
      reads this, table
    {
      first <= last <= |blob| && current <= |table.fixups|
    }

    ghost function Rest(): Input
      requires Valid()
      reads this, table
    {
      Input(blob[first..last], table.fixups[current..])
    }

    /** `r` is what `spec` says, and what is left to read as well. */
    ghost predicate Agrees<T(!new)>(r: Outcome<T, ()>, spec: Outcome<T, Input>, end: nat)
      reads this, table
    {
      match spec
      case Thrown => r == Thrown
      case Trapped => r == Trapped
      case Got(v, rest) => r == Got(v, ()) && Valid() && last == end && Rest() == rest
    }

    constructor (blob: seq<Byte>)
      ensures this.blob == blob && fresh(table)
    {
      this.blob := blob;
      table := new FixupTable();
    }

    /** Reads the table from the end of the stream. */
    method Open() returns (r: Outcome<(), ()>)
      modifies this, table
      ensures match OpenTable(blob)
        case Thrown => r == Thrown
        case Trapped => r == Trapped
        case Got(fixups, rest) => r.Got? && Valid() && Rest() == Input(Reversed(rest), fixups)
    {
      hide OpenTable, Reversed;
      var end := table.Read(blob);
      if !end.Got? {
        return if end.Thrown? then Thrown else Trapped;
      }
      ReversedTwice(blob[..end.value]);
      first, last, current := 0, end.value, 0;
      return Got((), ());
    }

    method ReadSizeValue() returns (r: Outcome<Size, ()>)
      requires Valid()
      modifies this`first
      ensures Agrees(r, ReadSize(old(Rest())), old(last))
    {
      hide Pow2;
      var result: Size, shift, more := 0, 0, true;
      ghost var start := blob[first..last];
      while more
        invariant Valid() && 0 <= shift
        invariant ReadLeb(start, 0, 0) == if more then ReadLeb(blob[first..last], shift, result)
                  else Got(result, blob[first..last])
        decreases more, last - first
      {
        if shift >= 70 || first == last {
          return Thrown;
        }
        var b := blob[first];
        assert blob[first..last][0] == b && blob[first..last][1..] == blob[first + 1..last];
        result := (result + b % 128 * Pow2(shift)) % LIMIT;
        shift, first, more := shift + 7, first + 1, b >= 128;
      }
      return Got(result, ());
    }

    /** Reads a value of type `s` over `was`. */
    method Read(s: Schema, was: Value) returns (r: Outcome<Value, ()>)
      requires Valid() && Proper(s) && HasType(s, was)
      modifies this
      ensures Agrees(r, Decode(s, was, old(Rest())), old(last))
      decreases s, 3
    {
      hide DecodeBody, HasType, Proper;
      if Versioned(s) {
        r := ReadFramed(s, was);
      } else {
        r := ReadBody(s, was);
      }
    }

    /** The body ends where its fixup tells, whatever was understood of it. */
    method ReadFramed(s: Schema, was: Value) returns (r: Outcome<Value, ()>)
      requires Valid() && Proper(s) && HasType(s, was) && Versioned(s)
      modifies this
      ensures Agrees(r, Decode(s, was, old(Rest())), old(last))
      decreases s, 2
    {
      hide DecodeBody, HasType, Proper, Unframe;
      ghost var inp := Rest();
      var end, start := last, current;
      if |table.fixups| < current + 1 {
        return Thrown;
      }
      current := current + 1;
      assert table.fixups[start] == inp.fixups[0];
      if end < first + table.fixups[start] {
        return Trapped;
      }
      last := first + table.fixups[start];
      assert Rest() == Input(inp.bytes[..inp.fixups[0]], inp.fixups[1..]);
      r := ReadBody(s, was);
      if !r.Got? {
        return;
      }
      first := last;
      last := end;
      assert blob[first..last] == inp.bytes[inp.fixups[0]..];
      var advanced := Advance(inp, start, r.value);
      if !advanced.Got? {
        return if advanced.Thrown? then Thrown else Trapped;
      }
    }

    /** Skips the fixups of a value. */
    method Advance(ghost inp: Input, start: nat, ghost v: Value) returns (r: Outcome<(), ()>)
      requires Valid() && start <= |table.fixups| && inp.fixups == table.fixups[start..] && inp.fixups != []
      requires inp.fixups[0] <= |inp.bytes| && blob[first..last] == inp.bytes[inp.fixups[0]..]
      modifies this`first, this`current
      ensures match Unframe(v, inp)
        case Thrown => r == Thrown
        case Trapped => r == Trapped
        case Got(_, rest) => r.Got? && Valid() && last == old(last) && Rest() == rest
    {
      hide ReadLeb;
      var advance := ReadSizeValue();
      if !advance.Got? {
        return if advance.Thrown? then Thrown else Trapped;
      }
      if |table.fixups| < start + advance.value {
        return Thrown;
      }
      current := start + advance.value;
      assert table.fixups[start..][advance.value..] == table.fixups[current..];
      return Got((), ());
    }

    method ReadBody(s: Schema, was: Value) returns (r: Outcome<Value, ()>)
      requires Valid() && Proper(s) && HasType(s, was)
      modifies this
      ensures Agrees(r, DecodeBody(s, was, old(Rest())), old(last))
      decreases s, 1
    {
      hide ReadLeb;
      match s
      case Bits(_, size) =>
        if last - first < size {
          return Thrown;
        }
        r := Got(Raw(blob[first..first + size]), ());
        assert blob[first..last][..size] == blob[first..first + size]
               && blob[first..last][size..] == blob[first + size..last];
        first := first + size;
      case Record(_, types) =>
        var vs := ReadAll(types, was.members);
        r := if vs.Got? then Got(Tuple(vs.value), ()) else if vs.Thrown? then Thrown else Trapped;
      case Pair(_, types) =>
        var vs := ReadAll(types, was.members);
        r := if vs.Got? then Got(Tuple(vs.value), ()) else if vs.Thrown? then Thrown else Trapped;
      case Array(_, _, elem) =>
        var vs := ReadRange(elem, was.members);
        r := if vs.Got? then Got(Tuple(vs.value), ()) else if vs.Thrown? then Thrown else Trapped;
      case BuiltinArray(_, _, elem) =>
        var vs := ReadRange(elem, was.members);
        r := if vs.Got? then Got(Tuple(vs.value), ()) else if vs.Thrown? then Thrown else Trapped;
      case Container(_, _, _) => r := ReadContainer(s, was);
      case Variant(_, _) => r := ReadVariant(s, was);
      case Optional(_, _) => r := ReadOptional(s, was);
    }

    method ReadContainer(s: Schema, was: Value) returns (r: Outcome<Value, ()>)
      requires Valid() && Proper(s) && HasType(s, was) && s.Container?
      modifies this
      ensures Agrees(r, DecodeBody(s, was, old(Rest())), old(last))
      decreases s, 0
    {
      hide ReadLeb, DecodeList;
      var size := ReadSizeValue();
      if !size.Got? {
        return if size.Thrown? then Thrown else Trapped;
      }
      InitFits(s.elem);
      var vs := ReadRange(s.elem, Resized(if s.resizable then was.elems else [], size.value, s.elem.init));
      r := if vs.Got? then Got(List(vs.value), ()) else if vs.Thrown? then Thrown else Trapped;
    }

    method ReadVariant(s: Schema, was: Value) returns (r: Outcome<Value, ()>)
      requires Valid() && Proper(s) && HasType(s, was) && s.Variant?
      modifies this
      ensures Agrees(r, DecodeBody(s, was, old(Rest())), old(last))
      decreases s, 0
    {
      hide ReadLeb;
      var index := ReadSizeValue();
      if !index.Got? {
        return if index.Thrown? then Thrown else Trapped;
      }
      if index.value < |s.types| {
        assert s.types[index.value] in s.types;
        InitFits(s.types[index.value]);
        var v := Read(s.types[index.value], s.types[index.value].init);
        r := if v.Got? then Got(Choice(index.value, v.value), ()) else if v.Thrown? then Thrown else Trapped;
      } else {
        r := Got(Choice(0, s.types[0].init), ());
      }
    }

    method ReadOptional(s: Schema, was: Value) returns (r: Outcome<Value, ()>)
      requires Valid() && Proper(s) && HasType(s, was) && s.Optional?
      modifies this
      ensures Agrees(r, DecodeBody(s, was, old(Rest())), old(last))
      decreases s, 0
    {
      if last == first {
        return Thrown;
      }
      var hasValue := blob[first] != 0;
      assert blob[first..last][1..] == blob[first + 1..last];
      first := first + 1;
      if hasValue {
        InitFits(s.elem);
        var v := Read(s.elem, s.elem.init);
        r := if v.Got? then Got(Present(v.value), ()) else if v.Thrown? then Thrown else Trapped;
      } else {
        r := Got(Absent, ());
      }
    }

    /** Members are read as long as the innermost versioned value has not ended. */
    method ReadAll(types: seq<Schema>, was: seq<Value>) returns (r: Outcome<seq<Value>, ()>)
      requires Valid() && (forall t | t in types :: Proper(t)) && HaveTypes(types, was)
      modifies this
      ensures Agrees(r, DecodeAll(types, was, old(Rest())), old(last))
      decreases types, 0
    {
      hide Decode, HasType, Proper;
      var vs: seq<Value> := [];
      ghost var inp, end := Rest(), last;
      NoneBefore(DecodeAll(types, was, inp));
      assert types[0..] == types && was[0..] == was;
      for i := 0 to |types|
        invariant Valid() && last == end && |vs| == i && HaveTypes(types[i..], was[i..])
        invariant DecodeAll(types, was, inp) == Behind(vs, DecodeAll(types[i..], was[i..], Rest()))
      {
        MemberStep(types, was, i, vs, Rest());
        if first != last {
          var v := Read(types[i], was[i]);
          if !v.Got? {
            return if v.Thrown? then Thrown else Trapped;
          }
          vs := vs + [v.value];
        } else {
          vs := vs + [was[i]];
        }
      }
      MembersRead(types[|types|..], was[|types|..], vs, Rest());
      r := Got(vs, ());
    }

    /** Elements are read whether the value has ended or not. */
    method ReadRange(elem: Schema, was: seq<Value>) returns (r: Outcome<seq<Value>, ()>)
      requires Valid() && Proper(elem) && forall v | v in was :: HasType(elem, v)
      modifies this
      ensures Agrees(r, DecodeList(elem, was, old(Rest())), old(last))
      decreases elem, 4
    {
      hide Decode, HasType, Proper;
      var vs: seq<Value> := [];
      ghost var inp, end := Rest(), last;
      NoneBefore(DecodeList(elem, was, inp));
      assert was[0..] == was;
      for i := 0 to |was|
        invariant Valid() && last == end && |vs| == i
        invariant DecodeList(elem, was, inp) == Behind(vs, DecodeList(elem, was[i..], Rest()))
      {
        ElementStep(elem, was, i, vs, Rest());
        var v := Read(elem, was[i]);
        if !v.Got? {
          return if v.Thrown? then Thrown else Trapped;
        }
        vs := vs + [v.value];
      }
      ElementsRead(elem, was[|was|..], vs, Rest());
      r := Got(vs, ());
    }
  }

  /** The fixup of a value is closed, and its number of fixups written. */
  lemma Closes(before: Code, body: Code, now: Code)
    requires now.bytes == before.bytes + body.bytes + Leb(|body.fixups| + 1)
    requires now.fixups == (before.fixups + [OPEN] + body.fixups)[|before.fixups| := |body.bytes|]
    ensures now == Join(before, Framed(body))
  {
    hide Leb;
    assert before.fixups + [OPEN] + body.fixups == before.fixups + ([OPEN] + body.fixups);
  }

  lemma JoinThree(a: Code, b: Code, c: Code)
    ensures Join(Join(a, b), c) == Join(a, Join(b, c))
  {
    assert a.bytes + b.bytes + c.bytes == a.bytes + (b.bytes + c.bytes);
    assert a.fixups + b.fixups + c.fixups == a.fixups + (b.fixups + c.fixups);
  }

  lemma {:induction false} AllStep(types: seq<Schema>, vs: seq<Value>, i: nat, now: Code)
    requires i < |types| && i < |vs| && HaveTypes(types, vs) && HaveTypes(types[i..], vs[i..])
    requires forall t | t in types :: Proper(t)
    ensures Proper(types[i]) && HasType(types[i], vs[i]) && HaveTypes(types[i + 1..], vs[i + 1..])
    ensures Join(now, EncodeAll(types[i..], vs[i..]))
            == Join(Join(now, Encode(types[i], vs[i])), EncodeAll(types[i + 1..], vs[i + 1..]))
    ensures |now.bytes| + |Encode(types[i], vs[i]).bytes| <= |Join(now, EncodeAll(types[i..], vs[i..])).bytes|
  {
    hide Encode, HasType, Proper;
    assert types[i] in types && types[i..][1..] == types[i + 1..] && vs[i..][1..] == vs[i + 1..];
    JoinThree(now, Encode(types[i], vs[i]), EncodeAll(types[i + 1..], vs[i + 1..]));
  }

  lemma {:induction false} NoneLeft(types: seq<Schema>, vs: seq<Value>, now: Code)
    requires types == [] && vs == []
    ensures Join(now, EncodeAll(types, vs)) == now
  {
  }

  lemma {:induction false} ListStep(elem: Schema, vs: seq<Value>, i: nat, now: Code)
    requires i < |vs| && forall v | v in vs :: HasType(elem, v)
    ensures Join(now, EncodeList(elem, vs[i..])) == Join(Join(now, Encode(elem, vs[i])), EncodeList(elem, vs[i + 1..]))
    ensures |now.bytes| + |Encode(elem, vs[i]).bytes| <= |Join(now, EncodeList(elem, vs[i..])).bytes|
  {
    hide Encode, HasType;
    assert vs[i..][1..] == vs[i + 1..];
    JoinThree(now, Encode(elem, vs[i]), EncodeList(elem, vs[i + 1..]));
  }

  lemma {:induction false} NoneListed(elem: Schema, vs: seq<Value>, now: Code)
    requires vs == []
    ensures Join(now, EncodeList(elem, vs)) == now
  {
  }

  ghost function Behind(vs: seq<Value>, r: Outcome<seq<Value>, Input>): Outcome<seq<Value>, Input> {
    match r
    case Got(more, rest) => Got(vs + more, rest)
    case Thrown => Thrown
    case Trapped => Trapped
  }

  lemma NoneBefore(r: Outcome<seq<Value>, Input>)
    ensures Behind([], r) == r
  {
    if r.Got? {
      assert [] + r.value == r.value;
    }
  }

  lemma BehindAfter(vs: seq<Value>, v: Value, r: Outcome<seq<Value>, Input>)
    ensures Behind(vs, After(v, r)) == Behind(vs + [v], r)
  {
    if r.Got? {
      assert vs + ([v] + r.value) == vs + [v] + r.value;
    }
  }

  lemma {:induction false} MemberStep(types: seq<Schema>, was: seq<Value>, i: nat, vs: seq<Value>, inp: Input)
    requires (forall t | t in types :: Proper(t)) && i < |types| && HaveTypes(types, was)
    requires HaveTypes(types[i..], was[i..])
    ensures Proper(types[i]) && HasType(types[i], was[i]) && HaveTypes(types[i + 1..], was[i + 1..])
    ensures Behind(vs, DecodeAll(types[i..], was[i..], inp))
         == if inp.bytes == [] then Behind(vs + [was[i]], DecodeAll(types[i + 1..], was[i + 1..], inp)) else
              match Decode(types[i], was[i], inp)
              case Thrown => Thrown
              case Trapped => Trapped
              case Got(v, rest) => Behind(vs + [v], DecodeAll(types[i + 1..], was[i + 1..], rest))
  {
    hide Decode, HasType, Proper, Behind, After;
    assert types[i] in types && types[i..][1..] == types[i + 1..] && was[i..][1..] == was[i + 1..];
    if inp.bytes == [] {
      BehindAfter(vs, was[i], DecodeAll(types[i + 1..], was[i + 1..], inp));
    } else {
      var r := Decode(types[i], was[i], inp);
      if r.Got? {
        BehindAfter(vs, r.value, DecodeAll(types[i + 1..], was[i + 1..], r.rest));
      } else {
        BehindNothing(vs);
      }
    }
  }

  lemma BehindNothing(vs: seq<Value>)
    ensures Behind(vs, Thrown) == Thrown && Behind(vs, Trapped) == Trapped
  {
  }

  lemma {:induction false} ElementStep(elem: Schema, was: seq<Value>, i: nat, vs: seq<Value>, inp: Input)
    requires Proper(elem) && i < |was| && forall v | v in was :: HasType(elem, v)
    ensures Behind(vs, DecodeList(elem, was[i..], inp))
         == match Decode(elem, was[i], inp)
            case Thrown => Thrown
            case Trapped => Trapped
            case Got(v, rest) => Behind(vs + [v], DecodeList(elem, was[i + 1..], rest))
  {
    hide Decode, HasType, Proper, Behind, After;
    assert was[i..][1..] == was[i + 1..];
    var r := Decode(elem, was[i], inp);
    if r.Got? {
      BehindAfter(vs, r.value, DecodeList(elem, was[i + 1..], r.rest));
    } else {
      BehindNothing(vs);
    }
  }

  lemma MembersRead(types: seq<Schema>, was: seq<Value>, vs: seq<Value>, inp: Input)
    requires types == [] && was == []
    ensures Behind(vs, DecodeAll(types, was, inp)) == Got(vs, inp)
  {
    assert vs + [] == vs;
  }

  lemma ElementsRead(elem: Schema, was: seq<Value>, vs: seq<Value>, inp: Input)
    requires Proper(elem) && was == []
    ensures Behind(vs, DecodeList(elem, was, inp)) == Got(vs, inp)
  {
    assert vs + [] == vs;
  }

  // ------------------------------------------------------------------ whole streams

  /** A stream with these values. */
  method StreamedOut(types: seq<Schema>, vs: seq<Value>) returns (blob: seq<Byte>)
    requires (forall t | t in types :: Proper(t)) && HaveTypes(types, vs) && |EncodeAll(types, vs).bytes| < OPEN
    ensures blob == Seal(EncodeAll(types, vs).bytes, EncodeAll(types, vs).fixups)
  {
    hide Encode, HasType, Proper, Seal;
    var out := new StreamOut();
    out.WriteAll(types, vs);
    assert out.Written() == EncodeAll(types, vs);
    AllClosed(types, vs);
    blob := out.SwapBlob();
  }

  /** What a stream holds, read by a program with other versions of the types. */
  method StreamedIn(blob: seq<Byte>, froms: seq<Schema>, ghost vs: seq<Value>, tos: seq<Schema>,
                    was: seq<Value>) returns (r: seq<Value>)
    requires |froms| == |tos| && (forall t | t in froms :: Proper(t)) && (forall t | t in tos :: Proper(t))
    requires EvolveAll(froms, tos) && HaveTypes(froms, vs) && HaveTypes(tos, was) && |EncodeAll(froms, vs).bytes| < OPEN
    requires blob == Seal(EncodeAll(froms, vs).bytes, EncodeAll(froms, vs).fixups)
    ensures r == MigrateAll(froms, tos, vs, was)
  {
    hide Encode, EncodeAll, Decode, HasType, Proper, Evolves, Seal, OpenTable, Migrate, Reversed, MigrateAll, HaveTypes;
    AllClosed(froms, vs);
    SealOpens(EncodeAll(froms, vs).bytes, EncodeAll(froms, vs).fixups);
    ReversedTwice(EncodeAll(froms, vs).bytes);
    var inp := new StreamIn(blob);
    var ok := inp.Open();
    r := [];
    assert froms[0..] == froms && vs[0..] == vs;
    ghost var result := MigrateAll(froms, tos, vs, was);
    SameLength(tos, was, result);
    SameLength(froms, vs, vs);
    for i := 0 to |tos|
      invariant inp.Valid() && |r| == i && HaveTypes(froms[i..], vs[i..])
      invariant |EncodeAll(froms[i..], vs[i..]).bytes| < OPEN
      invariant inp.Rest() == Input(EncodeAll(froms[i..], vs[i..]).bytes, EncodeAll(froms[i..], vs[i..]).fixups)
      invariant r == result[..i]
    {
      NextReads(froms, vs, tos, was, i);
      var v := inp.Read(tos[i], was[i]);
      r := r + [v.value];
    }
  }

  lemma SameLength(types: seq<Schema>, a: seq<Value>, b: seq<Value>)
    requires HaveTypes(types, a) && HaveTypes(types, b)
    ensures |a| == |b| == |types|
  {
  }

  /** Streaming values over to a program with the same types gives it these values. */
  method StreamOver(types: seq<Schema>, vs: seq<Value>, was: seq<Value>) returns (r: seq<Value>)
    requires (forall t | t in types :: Proper(t)) && HaveTypes(types, vs) && HaveTypes(types, was)
    requires |EncodeAll(types, vs).bytes| < OPEN
    ensures r == vs
  {
    hide Encode, HasType, Proper, Seal, Evolves, Migrate;
    EvolveSameAll(types);
    MigrateSameAll(types, vs, was);
    var blob := StreamedOut(types, vs);
    r := StreamedIn(blob, types, vs, types, was);
  }

  lemma AllClosed(types: seq<Schema>, vs: seq<Value>)
    requires (forall t | t in types :: Proper(t)) && HaveTypes(types, vs) && |EncodeAll(types, vs).bytes| < OPEN
    ensures var c := EncodeAll(types, vs); |c.fixups| < LIMIT && forall i | 0 <= i < |c.fixups| :: c.fixups[i] < OPEN
  {
    hide Proper, HasType, Encode;
    AllSize(types, vs);
    var c := EncodeAll(types, vs);
    forall i | 0 <= i < |c.fixups| ensures c.fixups[i] < OPEN {
      assert c.fixups[i] in c.fixups;
    }
  }

  lemma NextReads(froms: seq<Schema>, vs: seq<Value>, tos: seq<Schema>, was: seq<Value>, i: nat)
    requires |froms| == |tos| && i < |tos| && (forall t | t in froms :: Proper(t)) && (forall t | t in tos :: Proper(t))
    requires EvolveAll(froms, tos) && HaveTypes(froms, vs) && HaveTypes(tos, was)
    requires HaveTypes(froms[i..], vs[i..]) && |EncodeAll(froms[i..], vs[i..]).bytes| < OPEN
    ensures Proper(tos[i]) && HasType(tos[i], was[i]) && HaveTypes(froms[i + 1..], vs[i + 1..])
    ensures var c, more := EncodeAll(froms[i..], vs[i..]), EncodeAll(froms[i + 1..], vs[i + 1..]);
      Decode(tos[i], was[i], Input(c.bytes, c.fixups))
        == Got(MigrateAll(froms, tos, vs, was)[i], Input(more.bytes, more.fixups))
      && |more.bytes| < OPEN
  {
    hide Encode, Decode, HasType, Proper, Evolves, Migrate;
    assert froms[i] in froms && tos[i] in tos && froms[i..][1..] == froms[i + 1..] && vs[i..][1..] == vs[i + 1..];
    assert HasType(froms[i], vs[i]);
    EvolveAt(froms, tos, i);
    var c, more := EncodeAll(froms[i..], vs[i..]), EncodeAll(froms[i + 1..], vs[i + 1..]);
    ReadsBack(froms[i], tos[i], vs[i], was[i], Input(more.bytes, more.fixups));
    assert Input(c.bytes, c.fixups) == Feed(Encode(froms[i], vs[i]), Input(more.bytes, more.fixups));
  }

  /** A number, an optional one, a list and a variant in a struct, byte by byte: the value that is present after a 1,
      the length before the elements, the index before the alternative, the number of fixups behind each versioned
      value, and the table of fixups backwards at the end. */
  lemma StreamBytes()
    ensures HasType(EXAMPLE_TYPE, EXAMPLE)
    ensures var c := Encode(EXAMPLE_TYPE, EXAMPLE);
      Seal(c.bytes, c.fixups) == [7] + [1, 9] + [2, 5, 6] + [1, 8, 1] + [2] + [2, 9, 2]
  {
    hide Leb, Reversed, TableBytes, Encode, EncodeAll, HasType, HaveTypes;
    ExampleFits();
    MembersBytes();
    BodyBytes();
    RecordBytes();
    TableOf92();
  }

  lemma {:induction false} ExampleFits()
    ensures HaveTypes(EXAMPLE_TYPE.types, EXAMPLE.members) && HasType(EXAMPLE_TYPE, EXAMPLE)
  {
    var types, vs := EXAMPLE_TYPE.types, EXAMPLE.members;
    assert HasType(types[0], vs[0]) && HasType(types[1], vs[1]);
    assert HasType(types[2], vs[2]) && HasType(types[3], vs[3]);
  }

  lemma {:induction false} MembersBytes()
    requires HaveTypes(EXAMPLE_TYPE.types, EXAMPLE.members)
    ensures var types, vs := EXAMPLE_TYPE.types, EXAMPLE.members;
      && Encode(types[0], vs[0]) == Code([7], []) && Encode(types[1], vs[1]) == Code([1, 9], [])
      && Encode(types[2], vs[2]) == Code([2, 5, 6], []) && Encode(types[3], vs[3]) == Code([1, 8, 1], [2])
  {
    hide EncodeAll, HaveTypes, HasType, EncodeList, Framed;
    ListBytes();
    ChoiceBytes();
  }

  lemma {:induction false} ListBytes()
    ensures HasType(EXAMPLE_TYPE.types[2], EXAMPLE.members[2])
    ensures Encode(EXAMPLE_TYPE.types[2], EXAMPLE.members[2]) == Code([2, 5, 6], [])
  {
    hide EncodeAll;
    var es := EXAMPLE.members[2].elems;
    assert es[1..] == [Raw([6])] && es[1..][1..] == [];
    assert EncodeList(NUMBER, es[1..]) == Code([6], []);
    assert EncodeList(NUMBER, es) == Code([5, 6], []);
  }

  lemma {:induction false} ChoiceBytes()
    ensures HasType(EXAMPLE_TYPE.types[3], EXAMPLE.members[3])
    ensures Encode(EXAMPLE_TYPE.types[3], EXAMPLE.members[3]) == Code([1, 8, 1], [2])
  {
    hide EncodeAll, EncodeList;
    assert EncodeBody(EXAMPLE_TYPE.types[3], EXAMPLE.members[3]) == Code([1, 8], []);
  }

  lemma {:induction false} RecordBytes()
    requires HaveTypes(EXAMPLE_TYPE.types, EXAMPLE.members) && HasType(EXAMPLE_TYPE, EXAMPLE)
    requires EncodeAll(EXAMPLE_TYPE.types, EXAMPLE.members) == Code([7, 1, 9, 2, 5, 6, 1, 8, 1], [2])
    ensures Encode(EXAMPLE_TYPE, EXAMPLE) == Code([7, 1, 9, 2, 5, 6, 1, 8, 1, 2], [9, 2])
  {
    hide HasType, HaveTypes, EncodeAll;
    assert EncodeBody(EXAMPLE_TYPE, EXAMPLE) == EncodeAll(EXAMPLE_TYPE.types, EXAMPLE.members);
    assert Leb(2) == [2];
  }

  lemma {:induction false} BodyBytes()
    requires HaveTypes(EXAMPLE_TYPE.types, EXAMPLE.members)
    requires var types, vs := EXAMPLE_TYPE.types, EXAMPLE.members;
      && Encode(types[0], vs[0]) == Code([7], []) && Encode(types[1], vs[1]) == Code([1, 9], [])
      && Encode(types[2], vs[2]) == Code([2, 5, 6], []) && Encode(types[3], vs[3]) == Code([1, 8, 1], [2])
    ensures EncodeAll(EXAMPLE_TYPE.types, EXAMPLE.members) == Code([7, 1, 9, 2, 5, 6, 1, 8, 1], [2])
  {
    hide HasType, HaveTypes, EncodeAll, Encode, Join;
    var types, vs := EXAMPLE_TYPE.types, EXAMPLE.members;
    NoBytes(types, vs, 4);
    AllBytes(types, vs, 3, NOTHING);
    AllBytes(types, vs, 2, Join(Code([1, 8, 1], [2]), NOTHING));
    AllBytes(types, vs, 1, Join(Code([2, 5, 6], []), Join(Code([1, 8, 1], [2]), NOTHING)));
    AllBytes(types, vs, 0, Join(Code([1, 9], []), Join(Code([2, 5, 6], []), Join(Code([1, 8, 1], [2]), NOTHING))));
    Joined();
    assert types[0..] == types && vs[0..] == vs;
  }

  lemma Joined()
    ensures Join(Code([7], []), Join(Code([1, 9], []), Join(Code([2, 5, 6], []), Join(Code([1, 8, 1], [2]), NOTHING))))
         == Code([7, 1, 9, 2, 5, 6, 1, 8, 1], [2])
  {
  }

  lemma NoBytes(types: seq<Schema>, vs: seq<Value>, n: nat)
    requires HaveTypes(types, vs) && n == |types|
    ensures EncodeAll(types[n..], vs[n..]) == NOTHING
  {
  }

  lemma {:induction false} AllBytes(types: seq<Schema>, vs: seq<Value>, i: nat, rest: Code)
    requires HaveTypes(types, vs) && i < |types|
    requires EncodeAll(types[i + 1..], vs[i + 1..]) == rest
    ensures EncodeAll(types[i..], vs[i..]) == Join(Encode(types[i], vs[i]), rest)
  {
    hide Encode;
    assert types[i..][1..] == types[i + 1..] && vs[i..][1..] == vs[i + 1..];
  }

  lemma {:induction false} TableOf92()
    ensures Reversed(TableBytes([9, 2])) == [2, 9, 2]
  {
    assert [9, 2][1..] == [2] && [2][1..] == [];
    assert Lebs([2]) == [2] && Lebs([9, 2]) == [9, 2];
    assert TableBytes([9, 2]) == [2, 9, 2];
    assert [2, 9, 2][..2] == [2, 9] && [2, 9][..1] == [2] && [2][..0] == [];
    assert Reversed([2]) == [2] && Reversed([2, 9]) == [9, 2];
  }

  const NUMBER := Bits(Raw([0]), 1)

  const EXAMPLE_TYPE := Record(
    Tuple([Raw([0]), Absent, List([]), Choice(0, Raw([0]))]),
    [NUMBER, Optional(Absent, NUMBER), Container(List([]), true, NUMBER),
     Variant(Choice(0, Raw([0])), [NUMBER, NUMBER])])

  const EXAMPLE := Tuple([Raw([7]), Present(Raw([9])), List([Raw([5]), Raw([6])]), Choice(1, Raw([8]))])
}
