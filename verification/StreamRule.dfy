/** What values of streamable types look like in a stream, and what a reader with other versions of the types
    makes of them. */
module StreamRules {
  import opened ByteStrings
  import opened CompressedIntegers

  datatype Value =
    | Raw(bytes: seq<Byte>)
    | Tuple(members: seq<Value>)
    | List(elems: seq<Value>)
    | Choice(index: nat, chosen: Value)
    | Absent
    | Present(some: Value)

  /** A type as a stream sees it. `init` is the value it starts with where it stands: what the type or the
      struct around it initializes it to.

      Numbers are copied byte by byte. Records are structs and tuples, versioned like arrays and variants.
      A pair and a built-in array are not. Resizable containers keep the elements they have when they are
      read into, the others start empty. */
  datatype Schema =
    | Bits(init: Value, size: nat)
    | Record(init: Value, types: seq<Schema>)
    | Pair(init: Value, types: seq<Schema>)
    | Array(init: Value, count: nat, elem: Schema)
    | BuiltinArray(init: Value, count: nat, elem: Schema)
    | Container(init: Value, resizable: bool, elem: Schema)
    | Variant(init: Value, types: seq<Schema>)
    | Optional(init: Value, elem: Schema)

  predicate Versioned(s: Schema) {
    s.Record? || s.Array? || s.Variant?
  }

  predicate HasType(s: Schema, v: Value)
    decreases s
  {
    match s
    case Bits(_, size) => v.Raw? && |v.bytes| == size
    case Record(_, types) => v.Tuple? && HaveTypes(types, v.members)
    case Pair(_, types) => v.Tuple? && HaveTypes(types, v.members)
    case Array(_, count, elem) => v.Tuple? && |v.members| == count && forall m | m in v.members :: HasType(elem, m)
    case BuiltinArray(_, count, elem) => v.Tuple? && |v.members| == count && forall m | m in v.members ::
      HasType(elem, m)
    case Container(_, _, elem) => v.List? && forall e | e in v.elems :: HasType(elem, e)
    case Variant(_, types) => v.Choice? && v.index < |types| && HasType(types[v.index], v.chosen)
    case Optional(_, elem) => v.Absent? || (v.Present? && HasType(elem, v.some))
  }

  predicate HaveTypes(types: seq<Schema>, vs: seq<Value>)
    decreases types
  {
    |vs| == |types| && forall i | 0 <= i < |types| :: HasType(types[i], vs[i])
  }

  /** A type that exists: nothing is empty that C++ does not let be empty, and initial values fit. */
  predicate Proper(s: Schema)
    decreases s
  {
    && HasType(s, s.init)
    && match s
       case Bits(_, size) => size > 0
       case Record(_, types) => forall t | t in types :: Proper(t)
       case Pair(_, types) => types != [] && forall t | t in types :: Proper(t)
       case Array(_, _, elem) => Proper(elem)
       case BuiltinArray(_, count, elem) => count > 0 && Proper(elem)
       case Container(_, _, elem) => Proper(elem)
       case Variant(_, types) => 0 < |types| < LIMIT && forall t | t in types :: Proper(t)
       case Optional(_, elem) => Proper(elem)
  }

  lemma FirstFits(types: seq<Schema>)
    requires types != [] && forall t | t in types :: Proper(t)
    ensures HasType(types[0], types[0].init)
  {
    assert types[0] in types;
  }

  lemma InitFits(s: Schema)
    requires Proper(s)
    ensures HasType(s, s.init)
  {
  }

  // ------------------------------------------------------------------ writing

  /** What a value adds to the bytes of a stream and to its table of fixups. */
  datatype Code = Code(bytes: seq<Byte>, fixups: seq<nat>)

  function Join(a: Code, b: Code): Code {
    Code(a.bytes + b.bytes, a.fixups + b.fixups)
  }

  const NOTHING := Code([], [])

  /** A versioned value has a fixup, the length of its body, before all fixups of its body; behind its body it
      tells how many fixups these are together. */
  function Framed(body: Code): Code {
    Code(body.bytes + Leb(|body.fixups| + 1), [|body.bytes|] + body.fixups)
  }

  function Encode(s: Schema, v: Value): Code
    requires HasType(s, v)
    decreases s, 2
  {
    if Versioned(s) then Framed(EncodeBody(s, v)) else EncodeBody(s, v)
  }

  function EncodeBody(s: Schema, v: Value): Code
    requires HasType(s, v)
    decreases s, 1
  {
    match s
    case Bits(_, _) => Code(v.bytes, [])
    case Record(_, types) => EncodeAll(types, v.members)
    case Pair(_, types) => EncodeAll(types, v.members)
    case Array(_, _, elem) => EncodeList(elem, v.members)
    case BuiltinArray(_, _, elem) => EncodeList(elem, v.members)
    case Container(_, _, elem) => Join(Code(Leb(|v.elems|), []), EncodeList(elem, v.elems))
    case Variant(_, types) => Join(Code(Leb(v.index), []), Encode(types[v.index], v.chosen))
    case Optional(_, elem) => if v.Absent? then Code([0], []) else Join(Code([1], []), Encode(elem, v.some))
  }

  function EncodeAll(types: seq<Schema>, vs: seq<Value>): Code
    requires HaveTypes(types, vs)
    decreases types, 0
  {
    if types == [] then NOTHING else Join(Encode(types[0], vs[0]), EncodeAll(types[1..], vs[1..]))
  }

  function EncodeList(elem: Schema, vs: seq<Value>): Code
    requires forall v | v in vs :: HasType(elem, v)
    decreases elem, 3, |vs|
  {
    if vs == [] then NOTHING else Join(Encode(elem, vs[0]), EncodeList(elem, vs[1..]))
  }

  // ------------------------------------------------------------------ reading

  /** What is left to read: bytes up to the end of the innermost versioned value, and fixups. */
  datatype Input = Input(bytes: seq<Byte>, fixups: seq<nat>)

  function ReadSize(inp: Input): Outcome<Size, Input> {
    match ReadLeb(inp.bytes, 0, 0)
    case Got(n, rest) => Got(n, Input(rest, inp.fixups))
    case Thrown => Thrown
    case Trapped => Trapped
  }

  /** Reads a value of type `s` over `was`. */
  function Decode(s: Schema, was: Value, inp: Input): (r: Outcome<Value, Input>)
    requires Proper(s) && HasType(s, was)
    ensures r.Got? ==> HasType(s, r.value)
    decreases s, 2
  {
    if !Versioned(s) then DecodeBody(s, was, inp)
    else if inp.fixups == [] then Thrown
    else if inp.fixups[0] > |inp.bytes| then Trapped
    else
      var inner := Input(inp.bytes[..inp.fixups[0]], inp.fixups[1..]);
      match DecodeBody(s, was, inner)
      case Thrown => Thrown
      case Trapped => Trapped
      case Got(v, _) => Unframe(v, inp)
  }

  /** Behind the body: the number of fixups to skip. */
  function Unframe(v: Value, inp: Input): (r: Outcome<Value, Input>)
    requires inp.fixups != [] && inp.fixups[0] <= |inp.bytes|
    ensures r.Got? ==> r.value == v
  {
    match ReadSize(Input(inp.bytes[inp.fixups[0]..], inp.fixups))
    case Thrown => Thrown
    case Trapped => Trapped
    case Got(advance, rest) =>
      if advance > |inp.fixups| then Thrown else Got(v, Input(rest.bytes, inp.fixups[advance..]))
  }

  function DecodeBody(s: Schema, was: Value, inp: Input): (r: Outcome<Value, Input>)
    requires Proper(s) && HasType(s, was)
    ensures r.Got? ==> HasType(s, r.value)
    decreases s, 1
  {
    match s
    case Bits(_, size) =>
      if |inp.bytes| < size then Thrown else Got(Raw(inp.bytes[..size]), Input(inp.bytes[size..], inp.fixups))
    case Record(_, types) => AsTuple(DecodeAll(types, was.members, inp))
    case Pair(_, types) => AsTuple(DecodeAll(types, was.members, inp))
    case Array(_, _, elem) => AsTuple(DecodeList(elem, was.members, inp))
    case BuiltinArray(_, _, elem) => AsTuple(DecodeList(elem, was.members, inp))
    case Container(_, resizable, elem) =>
      (match ReadSize(inp)
       case Thrown => Thrown
       case Trapped => Trapped
       case Got(n, rest) => AsList(DecodeList(elem, Resized(if resizable then was.elems else [], n, elem.init), rest)))
    case Variant(_, types) =>
      (match ReadSize(inp)
       case Thrown => Thrown
       case Trapped => Trapped
       case Got(i, rest) => if i >= |types| then FirstFits(types);
         Got(Choice(0, types[0].init), rest) else AsChoice(i, Decode(types[i], types[i].init, rest)))
    case Optional(_, elem) =>
      if inp.bytes == [] then Thrown
      else if inp.bytes[0] == 0 then Got(Absent, Input(inp.bytes[1..], inp.fixups))
      else AsPresent(Decode(elem, elem.init, Input(inp.bytes[1..], inp.fixups)))
  }

  /** One member after the other; where the input ends, the others stay what they are. */
  function DecodeAll(types: seq<Schema>, olds: seq<Value>, inp: Input): (r: Outcome<seq<Value>, Input>)
    requires (forall t | t in types :: Proper(t)) && HaveTypes(types, olds)
    ensures r.Got? ==> HaveTypes(types, r.value)
    decreases types, 0
  {
    if types == [] then Got([], inp)
    else if inp.bytes == [] then After(olds[0], DecodeAll(types[1..], olds[1..], inp))
    else
      match Decode(types[0], olds[0], inp)
      case Thrown => Thrown
      case Trapped => Trapped
      case Got(v, rest) => After(v, DecodeAll(types[1..], olds[1..], rest))
  }

  /** As many elements as there are places. */
  function DecodeList(elem: Schema, olds: seq<Value>, inp: Input): (r: Outcome<seq<Value>, Input>)
    requires Proper(elem) && forall v | v in olds :: HasType(elem, v)
    ensures r.Got? ==> |r.value| == |olds| && forall v | v in r.value :: HasType(elem, v)
    decreases elem, 3, |olds|
  {
    if olds == [] then Got([], inp) else
      match Decode(elem, olds[0], inp)
      case Thrown => Thrown
      case Trapped => Trapped
      case Got(v, rest) => After(v, DecodeList(elem, olds[1..], rest))
  }

  function After(v: Value, r: Outcome<seq<Value>, Input>): Outcome<seq<Value>, Input> {
    match r
    case Got(vs, rest) => Got([v] + vs, rest)
    case Thrown => Thrown
    case Trapped => Trapped
  }

  function AsTuple(r: Outcome<seq<Value>, Input>): Outcome<Value, Input> {
    match r
    case Got(vs, rest) => Got(Tuple(vs), rest)
    case Thrown => Thrown
    case Trapped => Trapped
  }

  function AsList(r: Outcome<seq<Value>, Input>): Outcome<Value, Input> {
    match r
    case Got(vs, rest) => Got(List(vs), rest)
    case Thrown => Thrown
    case Trapped => Trapped
  }

  function AsChoice(i: nat, r: Outcome<Value, Input>): Outcome<Value, Input> {
    match r
    case Got(v, rest) => Got(Choice(i, v), rest)
    case Thrown => Thrown
    case Trapped => Trapped
  }

  function AsPresent(r: Outcome<Value, Input>): Outcome<Value, Input> {
    match r
    case Got(v, rest) => Got(Present(v), rest)
    case Thrown => Thrown
    case Trapped => Trapped
  }

  function Resized(was: seq<Value>, n: nat, init: Value): (r: seq<Value>)
    ensures |r| == n && forall i | 0 <= i < n :: r[i] == if i < |was| then was[i] else init
  {
    seq(n, i requires i >= 0 => if i < |was| then was[i] else init)
  }
}
