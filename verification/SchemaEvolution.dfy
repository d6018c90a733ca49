/** Reading with older or newer versions of the types. */
module SchemaEvolution {
  import opened CompressedIntegers
  import opened StreamRules

  /** Types that can be read where nothing is left: the members of a pair are skipped then. */
  predicate Skippable(s: Schema)
    decreases s
  {
    s.Pair? || (s.BuiltinArray? && Skippable(s.elem))
  }

  /** `to` is another version of `from`: records and variants have more or fewer types at the end, arrays have
      fewer elements, or more if these can be skipped; everything else is the same up to the versions of what is
      inside. */
  predicate Evolves(from: Schema, to: Schema)
    decreases from
  {
    match from
    case Bits(_, size) => to.Bits? && to.size == size
    case Record(_, types) => to.Record? && EvolveAll(types, to.types)
    case Pair(_, types) => to.Pair? && |to.types| == |types| && EvolveAll(types, to.types)
    case Array(_, count, elem) => to.Array? && (to.count <= count || Skippable(to.elem)) && Evolves(elem, to.elem)
    case BuiltinArray(_, count, elem) => to.BuiltinArray? && to.count == count && Evolves(elem, to.elem)
    case Container(_, _, elem) => to.Container? && Evolves(elem, to.elem)
    case Variant(_, types) => to.Variant? && EvolveAll(types, to.types)
    case Optional(_, elem) => to.Optional? && Evolves(elem, to.elem)
  }

  predicate EvolveAll(froms: seq<Schema>, tos: seq<Schema>)
    decreases froms
  {
    forall i | 0 <= i < |froms| && i < |tos| :: Evolves(froms[i], tos[i])
  }

  lemma EvolveAt(froms: seq<Schema>, tos: seq<Schema>, i: nat)
    requires EvolveAll(froms, tos) && i < |froms| && i < |tos|
    ensures Evolves(froms[i], tos[i])
  {
  }

  /** What a reader should end with: the members both versions have, and for the others what was there. */
  function Migrate(from: Schema, to: Schema, v: Value, was: Value): (r: Value)
    requires Proper(to) && Evolves(from, to) && HasType(from, v) && HasType(to, was)
    ensures HasType(to, r)
    decreases from, 1
  {
    match from
    case Bits(_, _) => v
    case Record(_, types) => Tuple(MigrateAll(types, to.types, v.members, was.members))
    case Pair(_, types) => Tuple(MigrateAll(types, to.types, v.members, was.members))
    case Array(_, _, elem) => Tuple(MigrateList(elem, to.elem, v.members, was.members))
    case BuiltinArray(_, _, elem) => Tuple(MigrateList(elem, to.elem, v.members, was.members))
    case Container(_, _, elem) =>
      List(MigrateList(elem, to.elem, v.elems,
                       Resized(if to.resizable then was.elems else [], |v.elems|, to.elem.init)))
    case Variant(_, types) =>
      FirstFits(to.types);
      if v.index >= |to.types| then Choice(0, to.types[0].init) else
        assert to.types[v.index] in to.types && EvolveAll(types, to.types);
        EvolveAt(types, to.types, v.index);
        InitFits(to.types[v.index]);
        Choice(v.index, Migrate(types[v.index], to.types[v.index], v.chosen, to.types[v.index].init))
    case Optional(_, elem) => if v.Absent? then Absent else Present(Migrate(elem, to.elem, v.some, to.elem.init))
  }

  function MigrateAll(froms: seq<Schema>, tos: seq<Schema>, vs: seq<Value>, was: seq<Value>): (r: seq<Value>)
    requires (forall t | t in tos :: Proper(t)) && EvolveAll(froms, tos) && HaveTypes(froms, vs) && HaveTypes(tos, was)
    ensures HaveTypes(tos, r)
    decreases froms, 0
  {
    seq(|tos|, i requires 0 <= i < |tos| =>
      if i < |froms| then (assert tos[i] in tos; Migrate(froms[i], tos[i], vs[i], was[i])) else was[i])
  }

  function MigrateList(from: Schema, to: Schema, vs: seq<Value>, was: seq<Value>): (r: seq<Value>)
    requires Proper(to) && Evolves(from, to)
    requires (forall v | v in vs :: HasType(from, v)) && (forall w | w in was :: HasType(to, w))
    ensures |r| == |was| && (forall x | x in r :: HasType(to, x))
    decreases from, 2
  {
    seq(|was|, i requires 0 <= i < |was| => if i < |vs| then Migrate(from, to, vs[i], was[i]) else was[i])
  }

  // ------------------------------------------------------------------ sizes

  /** Every value takes at least one byte; there are at most as many fixups as bytes, and none is larger. */
  lemma {:induction false} CodeSize(s: Schema, v: Value)
    requires Proper(s) && HasType(s, v)
    ensures var c := Encode(s, v);
      0 < |c.bytes| && |c.fixups| <= |c.bytes| && forall f | f in c.fixups :: f <= |c.bytes|
    decreases s, 2
  {
    BodySize(s, v);
  }

  lemma {:induction false} BodySize(s: Schema, v: Value)
    requires Proper(s) && HasType(s, v)
    ensures var c := EncodeBody(s, v);
      |c.fixups| <= |c.bytes| && (forall f | f in c.fixups :: f <= |c.bytes|) && (!Versioned(s) ==> 0 < |c.bytes|)
    decreases s, 1
  {
    hide Leb;
    match s
    case Bits(_, _) =>
    case Record(_, types) => AllSize(types, v.members);
    case Pair(_, types) => AllSize(types, v.members);
    case Array(_, _, elem) => ListSize(elem, v.members);
    case BuiltinArray(_, _, elem) => ListSize(elem, v.members);
    case Container(_, _, elem) => ListSize(elem, v.elems);
    case Variant(_, types) =>
      assert types[v.index] in types;
      CodeSize(types[v.index], v.chosen);
    case Optional(_, elem) =>
      if v.Present? {
        CodeSize(elem, v.some);
      }
  }

  lemma {:induction false} AllSize(types: seq<Schema>, vs: seq<Value>)
    requires (forall t | t in types :: Proper(t)) && HaveTypes(types, vs)
    ensures var c := EncodeAll(types, vs);
      |types| <= |c.bytes| && |c.fixups| <= |c.bytes| && forall f | f in c.fixups :: f <= |c.bytes|
    decreases types, 0
  {
    if types != [] {
      CodeSize(types[0], vs[0]);
      AllSize(types[1..], vs[1..]);
    }
  }

  lemma {:induction false} ListSize(elem: Schema, vs: seq<Value>)
    requires Proper(elem) && forall v | v in vs :: HasType(elem, v)
    ensures var c := EncodeList(elem, vs);
      |vs| <= |c.bytes| && |c.fixups| <= |c.bytes| && forall f | f in c.fixups :: f <= |c.bytes|
    decreases elem, 3, |vs|
  {
    if vs != [] {
      CodeSize(elem, vs[0]);
      ListSize(elem, vs[1..]);
    }
  }

  // ------------------------------------------------------------------ reading back

  function Feed(c: Code, tail: Input): Input {
    Input(c.bytes + tail.bytes, c.fixups + tail.fixups)
  }

  lemma FeedJoin(a: Code, b: Code, tail: Input)
    ensures Feed(Join(a, b), tail) == Feed(a, Feed(b, tail))
  {
    assert a.bytes + b.bytes + tail.bytes == a.bytes + (b.bytes + tail.bytes);
    assert a.fixups + b.fixups + tail.fixups == a.fixups + (b.fixups + tail.fixups);
  }

  lemma SizeReads(n: Size, tail: Input)
    ensures ReadSize(Feed(Code(Leb(n), []), tail)) == Got(n, tail)
  {
    LebRoundTrip(n, tail.bytes);
    assert [] + tail.fixups == tail.fixups;
  }

  /** However much of its body a reader understands, it goes on behind the value. */
  lemma FrameReads(body: Code, to: Schema, was: Value, m: Value, tail: Input)
    requires Proper(to) && HasType(to, was) && Versioned(to) && |body.fixups| + 1 < LIMIT
    requires var r := DecodeBody(to, was, Input(body.bytes, body.fixups + tail.fixups)); r.Got? && r.value == m
    ensures Decode(to, was, Feed(Framed(body), tail)) == Got(m, tail)
  {
    hide DecodeBody, Leb, ReadLeb, HasType, Proper;
    var inp, n := Feed(Framed(body), tail), |body.bytes|;
    assert inp.fixups[0] == n && inp.fixups[1..] == body.fixups + tail.fixups;
    assert inp.bytes[..n] == body.bytes;
    assert inp.bytes[n..] == Leb(|body.fixups| + 1) + tail.bytes;
    LebRoundTrip(|body.fixups| + 1, tail.bytes);
    assert inp.fixups[|body.fixups| + 1..] == tail.fixups;
  }

  /** The reader gets what both versions have in common, keeps what it had for the rest, and both its cursors
      stand behind the value. */
  lemma {:induction false} ReadsBack(from: Schema, to: Schema, v: Value, was: Value, tail: Input)
    requires Proper(from) && Proper(to) && Evolves(from, to) && HasType(from, v) && HasType(to, was)
    requires |Encode(from, v).bytes| < LIMIT
    ensures Decode(to, was, Feed(Encode(from, v), tail)) == Got(Migrate(from, to, v, was), tail)
    decreases from, 2
  {
    CodeSize(from, v);
    if Versioned(from) {
      var body := EncodeBody(from, v);
      BodySize(from, v);
      BodyReads(from, to, v, was, Input([], tail.fixups));
      assert Feed(body, Input([], tail.fixups)) == Input(body.bytes, body.fixups + tail.fixups);
      FrameReads(body, to, was, Migrate(from, to, v, was), tail);
    } else {
      BodyReads(from, to, v, was, tail);
    }
  }

  lemma {:induction false} BodyReads(from: Schema, to: Schema, v: Value, was: Value, tail: Input)
    requires Proper(from) && Proper(to) && Evolves(from, to) && HasType(from, v) && HasType(to, was)
    requires |EncodeBody(from, v).bytes| < LIMIT && (Versioned(from) ==> tail.bytes == [])
    ensures var r := DecodeBody(to, was, Feed(EncodeBody(from, v), tail));
      r.Got? && r.value == Migrate(from, to, v, was) && (!Versioned(from) ==> r.rest == tail)
    decreases from, 1
  {
    match from
    case Bits(_, size) =>
      assert (v.bytes + tail.bytes)[..size] == v.bytes && (v.bytes + tail.bytes)[size..] == tail.bytes;
      assert [] + tail.fixups == tail.fixups;
    case Record(_, types) => AllRead(types, to.types, v.members, was.members, tail);
    case Pair(_, types) => AllRead(types, to.types, v.members, was.members, tail);
    case Array(_, _, elem) => ListRead(elem, to.elem, v.members, was.members, tail);
    case BuiltinArray(_, _, elem) => ListRead(elem, to.elem, v.members, was.members, tail);
    case Container(_, _, elem) => ContainerReads(from, to, v, was, tail);
    case Variant(_, types) => VariantReads(from, to, v, was, tail);
    case Optional(_, elem) => OptionalReads(from, to, v, was, tail);
  }

  lemma {:induction false} ContainerReads(from: Schema, to: Schema, v: Value, was: Value, tail: Input)
    requires Proper(from) && Proper(to) && Evolves(from, to) && HasType(from, v) && HasType(to, was)
    requires from.Container? && |EncodeBody(from, v).bytes| < LIMIT
    ensures DecodeBody(to, was, Feed(EncodeBody(from, v), tail)) == Got(Migrate(from, to, v, was), tail)
    decreases from, 0
  {
    var size, elems := Code(Leb(|v.elems|), []), EncodeList(from.elem, v.elems);
    ListSize(from.elem, v.elems);
    FeedJoin(size, elems, tail);
    SizeReads(|v.elems|, Feed(elems, tail));
    ListRead(from.elem, to.elem, v.elems, Resized(if to.resizable then was.elems else [], |v.elems|, to.elem.init),
             tail);
  }

  lemma {:induction false} VariantReads(from: Schema, to: Schema, v: Value, was: Value, tail: Input)
    requires Proper(from) && Proper(to) && Evolves(from, to) && HasType(from, v) && HasType(to, was)
    requires from.Variant? && |EncodeBody(from, v).bytes| < LIMIT
    ensures var r := DecodeBody(to, was, Feed(EncodeBody(from, v), tail));
      r.Got? && r.value == Migrate(from, to, v, was)
    decreases from, 0
  {
    var index, chosen := Code(Leb(v.index), []), Encode(from.types[v.index], v.chosen);
    FeedJoin(index, chosen, tail);
    SizeReads(v.index, Feed(chosen, tail));
    if v.index < |to.types| {
      assert from.types[v.index] in from.types && to.types[v.index] in to.types && EvolveAll(from.types, to.types);
      EvolveAt(from.types, to.types, v.index);
      InitFits(to.types[v.index]);
      ReadsBack(from.types[v.index], to.types[v.index], v.chosen, to.types[v.index].init, tail);
    }
  }

  lemma {:induction false} OptionalReads(from: Schema, to: Schema, v: Value, was: Value, tail: Input)
    requires Proper(from) && Proper(to) && Evolves(from, to) && HasType(from, v) && HasType(to, was)
    requires from.Optional? && |EncodeBody(from, v).bytes| < LIMIT
    ensures DecodeBody(to, was, Feed(EncodeBody(from, v), tail)) == Got(Migrate(from, to, v, was), tail)
    decreases from, 0
  {
    var inp := Feed(EncodeBody(from, v), tail);
    if v.Absent? {
      assert inp.bytes[0] == 0 && inp.bytes[1..] == tail.bytes && inp.fixups == tail.fixups;
    } else {
      var some := Encode(from.elem, v.some);
      FeedJoin(Code([1], []), some, tail);
      assert inp.bytes[0] == 1 && inp.bytes[1..] == Feed(some, tail).bytes && inp.fixups == Feed(some, tail).fixups;
      InitFits(to.elem);
      ReadsBack(from.elem, to.elem, v.some, to.elem.init, tail);
    }
  }

  lemma {:induction false} AllRead(froms: seq<Schema>, tos: seq<Schema>, vs: seq<Value>, was: seq<Value>, tail: Input)
    requires (forall t | t in froms :: Proper(t)) && (forall t | t in tos :: Proper(t))
    requires EvolveAll(froms, tos) && HaveTypes(froms, vs) && HaveTypes(tos, was)
    requires |EncodeAll(froms, vs).bytes| < LIMIT && (|froms| == |tos| || tail.bytes == [])
    ensures var r := DecodeAll(tos, was, Feed(EncodeAll(froms, vs), tail));
      r.Got? && r.value == MigrateAll(froms, tos, vs, was) && (|froms| == |tos| ==> r.rest == tail)
    decreases froms, 0
  {
    hide Encode, EncodeAll, Decode, DecodeAll, HasType, Proper, Evolves, Migrate, MigrateAll;
    if tos == [] || froms == [] {
      if tos != [] {
        NothingLeft(tos, was, tail);
      }
      MembersEnd(froms, tos, vs, was, tail);
    } else {
      MemberFirst(froms, tos, vs, was, tail);
      ReadsBack(froms[0], tos[0], vs[0], was[0], Feed(EncodeAll(froms[1..], vs[1..]), tail));
      AllRead(froms[1..], tos[1..], vs[1..], was[1..], tail);
    }
  }

  lemma {:induction false} MembersEnd(froms: seq<Schema>, tos: seq<Schema>, vs: seq<Value>, was: seq<Value>,
                                      tail: Input)
    requires (forall t | t in tos :: Proper(t)) && (tos == [] || froms == [])
    requires EvolveAll(froms, tos) && HaveTypes(froms, vs) && HaveTypes(tos, was)
    ensures MigrateAll(froms, tos, vs, was) == was && (froms == [] ==> Feed(EncodeAll(froms, vs), tail) == tail)
    ensures var inp := Feed(EncodeAll(froms, vs), tail); tos == [] ==> DecodeAll(tos, was, inp) == Got([], inp)
  {
    hide Encode, HasType, Proper, Evolves, Migrate;
  }

  lemma {:induction false} MemberFirst(froms: seq<Schema>, tos: seq<Schema>, vs: seq<Value>, was: seq<Value>,
                                       tail: Input)
    requires (forall t | t in froms :: Proper(t)) && (forall t | t in tos :: Proper(t)) && tos != [] && froms != []
    requires EvolveAll(froms, tos) && HaveTypes(froms, vs) && HaveTypes(tos, was)
    ensures Proper(froms[0]) && Proper(tos[0]) && Evolves(froms[0], tos[0]) && HasType(froms[0], vs[0])
    ensures HasType(tos[0], was[0])
    ensures EvolveAll(froms[1..], tos[1..]) && HaveTypes(froms[1..], vs[1..]) && HaveTypes(tos[1..], was[1..])
    ensures |Encode(froms[0], vs[0]).bytes| + |EncodeAll(froms[1..], vs[1..]).bytes| == |EncodeAll(froms, vs).bytes|
    ensures DecodeAll(tos, was, Feed(EncodeAll(froms, vs), tail))
         == match Decode(tos[0], was[0], Feed(Encode(froms[0], vs[0]), Feed(EncodeAll(froms[1..], vs[1..]), tail)))
            case Thrown => Thrown
            case Trapped => Trapped
            case Got(v, rest) => After(v, DecodeAll(tos[1..], was[1..], rest))
    ensures MigrateAll(froms, tos, vs, was)
         == [Migrate(froms[0], tos[0], vs[0], was[0])] + MigrateAll(froms[1..], tos[1..], vs[1..], was[1..])
  {
    hide Encode, Decode, HasType, Proper, Evolves, Migrate;
    assert froms[0] in froms && tos[0] in tos;
    CodeSize(froms[0], vs[0]);
    FeedJoin(Encode(froms[0], vs[0]), EncodeAll(froms[1..], vs[1..]), tail);
  }

  lemma {:induction false} NothingLeft(types: seq<Schema>, was: seq<Value>, inp: Input)
    requires (forall t | t in types :: Proper(t)) && HaveTypes(types, was) && inp.bytes == []
    ensures DecodeAll(types, was, inp) == Got(was, inp)
    decreases types
  {
    if types != [] {
      NothingLeft(types[1..], was[1..], inp);
      assert [was[0]] + was[1..] == was;
    }
  }

  lemma {:induction false} ListRead(from: Schema, to: Schema, vs: seq<Value>, was: seq<Value>, tail: Input)
    requires Proper(from) && Proper(to) && Evolves(from, to) && (|was| <= |vs| || (Skippable(to) && tail.bytes == []))
    requires (forall v | v in vs :: HasType(from, v)) && (forall w | w in was :: HasType(to, w))
    requires |EncodeList(from, vs).bytes| < LIMIT
    ensures var r := DecodeList(to, was, Feed(EncodeList(from, vs), tail));
      r.Got? && r.value == MigrateList(from, to, vs, was) && (|was| == |vs| ==> r.rest == tail)
    decreases from, 3, |vs|
  {
    hide Encode, EncodeList, Decode, DecodeList, HasType, Proper, Evolves, Migrate, MigrateList, Skippable;
    if was == [] {
      ListEnd(from, to, vs, was, tail);
    } else if vs == [] {
      SkipList(to, was, tail);
      ListEnd(from, to, vs, was, tail);
    } else {
      ListFirst(from, to, vs, was, tail);
      ReadsBack(from, to, vs[0], was[0], Feed(EncodeList(from, vs[1..]), tail));
      ListRead(from, to, vs[1..], was[1..], tail);
      MigrateFirst(from, to, vs, was);
    }
  }

  lemma {:induction false} ListEnd(from: Schema, to: Schema, vs: seq<Value>, was: seq<Value>, tail: Input)
    requires Proper(to) && Evolves(from, to) && (was == [] || vs == [])
    requires (forall v | v in vs :: HasType(from, v)) && (forall w | w in was :: HasType(to, w))
    ensures MigrateList(from, to, vs, was) == was && (vs == [] ==> Feed(EncodeList(from, vs), tail) == tail)
    ensures var inp := Feed(EncodeList(from, vs), tail); was == [] ==> DecodeList(to, was, inp) == Got([], inp)
  {
    hide HasType, Proper, Evolves, Migrate, Encode;
  }

  lemma {:induction false} MigrateFirst(from: Schema, to: Schema, vs: seq<Value>, was: seq<Value>)
    requires Proper(to) && Evolves(from, to) && was != [] && vs != []
    requires (forall v | v in vs :: HasType(from, v)) && (forall w | w in was :: HasType(to, w))
    ensures MigrateList(from, to, vs, was)
         == [Migrate(from, to, vs[0], was[0])] + MigrateList(from, to, vs[1..], was[1..])
  {
    hide HasType, Proper, Evolves, Migrate;
  }

  lemma {:induction false} ListFirst(from: Schema, to: Schema, vs: seq<Value>, was: seq<Value>, tail: Input)
    requires Proper(to) && vs != [] && was != []
    requires (forall v | v in vs :: HasType(from, v)) && (forall w | w in was :: HasType(to, w))
    ensures |Encode(from, vs[0]).bytes| + |EncodeList(from, vs[1..]).bytes| == |EncodeList(from, vs).bytes|
    ensures DecodeList(to, was, Feed(EncodeList(from, vs), tail))
         == match Decode(to, was[0], Feed(Encode(from, vs[0]), Feed(EncodeList(from, vs[1..]), tail)))
            case Thrown => Thrown
            case Trapped => Trapped
            case Got(v, rest) => After(v, DecodeList(to, was[1..], rest))
  {
    hide Encode, Decode, HasType, Proper;
    FeedJoin(Encode(from, vs[0]), EncodeList(from, vs[1..]), tail);
  }

  // ------------------------------------------------------------------ where nothing is left

  /** Reading where nothing is left succeeds exactly for the types that can be skipped, and changes nothing. */
  lemma {:induction false} SkipEmpty(s: Schema, was: Value, inp: Input)
    requires Proper(s) && HasType(s, was) && inp.bytes == []
    ensures Decode(s, was, inp).Got? <==> Skippable(s)
    ensures Skippable(s) ==> Decode(s, was, inp) == Got(was, inp)
    decreases s, 1
  {
    hide ReadSize;
    NoSize(inp);
    match s
    case Pair(_, types) => NothingLeft(types, was.members, inp);
    case BuiltinArray(_, count, elem) =>
      if Skippable(elem) {
        SkipList(elem, was.members, inp);
      } else {
        SkipEmpty(elem, was.members[0], inp);
        ListFails(elem, was.members, inp);
      }
    case Record(_, _) => NoFrame(s, was, inp);
    case Array(_, _, _) => NoFrame(s, was, inp);
    case Variant(_, _) => NoFrame(s, was, inp);
    case _ =>
  }

  lemma NoFrame(s: Schema, was: Value, inp: Input)
    requires Proper(s) && HasType(s, was) && inp.bytes == [] && Versioned(s)
    ensures !Decode(s, was, inp).Got?
  {
    hide DecodeBody, HasType, Proper, ReadSize;
    if inp.fixups != [] && inp.fixups[0] <= |inp.bytes| {
      NoSize(Input(inp.bytes[inp.fixups[0]..], inp.fixups));
    }
  }

  lemma NoSize(inp: Input)
    requires inp.bytes == []
    ensures ReadSize(inp) == Thrown
  {
  }

  lemma ListFails(elem: Schema, was: seq<Value>, inp: Input)
    requires Proper(elem) && was != [] && (forall w | w in was :: HasType(elem, w)) && !Decode(elem, was[0], inp).Got?
    ensures !DecodeList(elem, was, inp).Got?
  {
    hide Decode, HasType, Proper;
  }

  lemma {:induction false} SkipList(elem: Schema, was: seq<Value>, inp: Input)
    requires Proper(elem) && Skippable(elem) && (forall w | w in was :: HasType(elem, w)) && inp.bytes == []
    ensures DecodeList(elem, was, inp) == Got(was, inp)
    decreases elem, 2, |was|
  {
    if was != [] {
      SkipEmpty(elem, was[0], inp);
      SkipList(elem, was[1..], inp);
      assert [was[0]] + was[1..] == was;
    }
  }

  // ------------------------------------------------------------------ what migration keeps

  lemma {:induction false} EvolvesSame(s: Schema)
    requires Proper(s)
    ensures Evolves(s, s)
    decreases s, 1
  {
    match s
    case Bits(_, _) =>
    case Record(_, types) => EvolveSameAll(types);
    case Pair(_, types) => EvolveSameAll(types);
    case Array(_, _, elem) => EvolvesSame(elem);
    case BuiltinArray(_, _, elem) => EvolvesSame(elem);
    case Container(_, _, elem) => EvolvesSame(elem);
    case Variant(_, types) => EvolveSameAll(types);
    case Optional(_, elem) => EvolvesSame(elem);
  }

  lemma {:induction false} EvolveSameAll(types: seq<Schema>)
    requires forall t | t in types :: Proper(t)
    ensures EvolveAll(types, types)
    decreases types, 0
  {
    forall i | 0 <= i < |types| ensures Evolves(types[i], types[i]) {
      assert types[i] in types;
      EvolvesSame(types[i]);
    }
  }

  /** Without a change of version nothing is lost and nothing of the old value is left. */
  lemma {:induction false} MigrateSame(s: Schema, v: Value, was: Value)
    requires Proper(s) && Evolves(s, s) && HasType(s, v) && HasType(s, was)
    ensures Migrate(s, s, v, was) == v
    decreases s, 2
  {
    match s
    case Bits(_, _) =>
    case Record(_, types) => MigrateSameAll(types, v.members, was.members);
    case Pair(_, types) => MigrateSameAll(types, v.members, was.members);
    case Array(_, _, elem) => MigrateSameList(elem, v.members, was.members);
    case BuiltinArray(_, _, elem) => MigrateSameList(elem, v.members, was.members);
    case Container(_, resizable, elem) =>
      MigrateSameList(elem, v.elems, Resized(if resizable then was.elems else [], |v.elems|, elem.init));
    case Variant(_, types) =>
      assert types[v.index] in types && EvolveAll(types, types);
      EvolveAt(types, types, v.index);
      InitFits(types[v.index]);
      MigrateSame(types[v.index], v.chosen, types[v.index].init);
    case Optional(_, elem) =>
      if v.Present? {
        InitFits(elem);
        MigrateSame(elem, v.some, elem.init);
      }
  }

  lemma {:induction false} MigrateSameAll(types: seq<Schema>, vs: seq<Value>, was: seq<Value>)
    requires (forall t | t in types :: Proper(t)) && EvolveAll(types, types) && HaveTypes(types, vs)
    requires HaveTypes(types, was)
    ensures MigrateAll(types, types, vs, was) == vs
    decreases types, 0
  {
    forall i | 0 <= i < |types| ensures MigrateAll(types, types, vs, was)[i] == vs[i] {
      assert types[i] in types;
      MigrateSame(types[i], vs[i], was[i]);
    }
  }

  lemma {:induction false} MigrateSameList(elem: Schema, vs: seq<Value>, was: seq<Value>)
    requires Proper(elem) && Evolves(elem, elem) && |was| == |vs|
    requires (forall v | v in vs :: HasType(elem, v)) && (forall w | w in was :: HasType(elem, w))
    ensures MigrateList(elem, elem, vs, was) == vs
    decreases elem, 3
  {
    forall i | 0 <= i < |vs| ensures MigrateList(elem, elem, vs, was)[i] == vs[i] {
      MigrateSame(elem, vs[i], was[i]);
    }
  }

  /** An array with another number of elements is read exactly when it has not more of them, or when these can
      be skipped: unlike members, elements are read even where the value ends. */
  lemma ArrayLengths(from: Schema, to: Schema, v: Value, was: Value, tail: Input)
    requires Proper(from) && Proper(to) && from.Array? && to.Array? && Evolves(from.elem, to.elem)
    requires HasType(from, v) && HasType(to, was) && |Encode(from, v).bytes| < LIMIT
    ensures Decode(to, was, Feed(Encode(from, v), tail)).Got? <==> to.count <= from.count || Skippable(to.elem)
  {
    if to.count <= from.count || Skippable(to.elem) {
      ReadsBack(from, to, v, was, tail);
    } else {
      var body, inp := EncodeBody(from, v), Feed(Encode(from, v), tail);
      assert inp.bytes[..|body.bytes|] == body.bytes && inp.fixups[0] == |body.bytes|;
      assert inp.fixups[1..] == body.fixups + tail.fixups;
      ListStuck(from.elem, to.elem, v.members, was.members, Input([], tail.fixups));
      assert Feed(body, Input([], tail.fixups)) == Input(body.bytes, inp.fixups[1..]);
    }
  }

  lemma {:induction false} ListStuck(from: Schema, to: Schema, vs: seq<Value>, was: seq<Value>, tail: Input)
    requires Proper(from) && Proper(to) && Evolves(from, to) && |vs| < |was| && !Skippable(to) && tail.bytes == []
    requires (forall v | v in vs :: HasType(from, v)) && (forall w | w in was :: HasType(to, w))
    requires |EncodeList(from, vs).bytes| < LIMIT
    ensures !DecodeList(to, was, Feed(EncodeList(from, vs), tail)).Got?
    decreases |vs|
  {
    hide Encode, Decode, HasType, Proper, Evolves, Skippable;
    if vs == [] {
      assert Feed(EncodeList(from, vs), tail) == tail;
      SkipEmpty(to, was[0], tail);
    } else {
      ListFirst(from, to, vs, was, tail);
      ReadsBack(from, to, vs[0], was[0], Feed(EncodeList(from, vs[1..]), tail));
      ListStuck(from, to, vs[1..], was[1..], tail);
    }
  }
}
