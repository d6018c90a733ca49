/** Streams that end too early: what is read of a value whose bytes or fixups are cut short. */
module StreamCuts {
  import opened ByteStrings
  import opened CompressedIntegers
  import opened StreamRules
  import opened SchemaEvolution

  /** The value ends with a pair that no versioned value is around. */
  predicate EndsOpen(s: Schema, v: Value)
    requires HasType(s, v)
    decreases s
  {
    match s
    case Bits(_, _) => false
    case Record(_, _) => false
    case Pair(_, _) => true
    case Array(_, _, _) => false
    case BuiltinArray(_, _, elem) => v.members != [] && EndsOpen(elem, v.members[|v.members| - 1])
    case Container(_, _, elem) => v.elems != [] && EndsOpen(elem, v.elems[|v.elems| - 1])
    case Variant(_, _) => false
    case Optional(_, elem) => v.Present? && EndsOpen(elem, v.some)
  }

  lemma {:induction false} SkippableOpen(s: Schema, v: Value)
    requires Proper(s) && HasType(s, v) && Skippable(s)
    ensures EndsOpen(s, v)
    decreases s
  {
    if s.BuiltinArray? {
      assert v.members[|v.members| - 1] in v.members;
      SkippableOpen(s.elem, v.members[|v.members| - 1]);
    }
  }

  /** The first `k` bytes of a value, with its fixups and those behind it. */
  function Cut(c: Code, k: nat, more: seq<nat>): Input
    requires k <= |c.bytes|
  {
    Input(c.bytes[..k], c.fixups + more)
  }

  /** A value is read from less than all its bytes, wherever it is cut off, only if it ends with such a pair. */
  lemma {:induction false} CutFails(s: Schema, v: Value, was: Value, k: nat, more: seq<nat>)
    requires Proper(s) && HasType(s, v) && HasType(s, was) && k < |Encode(s, v).bytes| < LIMIT
    ensures var r := Decode(s, was, Cut(Encode(s, v), k, more)); r.Got? ==> EndsOpen(s, v) && r.rest.bytes == []
    decreases s, 2
  {
    hide Leb;
    if Versioned(s) {
      BodySize(s, v);
      FrameCut(EncodeBody(s, v), s, was, k, more);
    } else {
      match s
      case Bits(_, _) =>
      case Pair(_, types) => AllCut(types, v.members, was.members, k, more);
      case BuiltinArray(_, _, elem) => ListCut(elem, v.members, was.members, k, more);
      case Container(_, _, _) => ContainerCut(s, v, was, k, more);
      case Optional(_, _) => OptionalCut(s, v, was, k, more);
    }
  }

  lemma {:induction false} SizeCut(n: Size, k: nat, fixups: seq<nat>)
    requires k < |Leb(n)|
    ensures ReadSize(Input(Leb(n)[..k], fixups)) == Thrown
  {
    hide Leb, ReadLeb;
    var s := Leb(n)[..k];
    forall i | 0 <= i < |s| && i < 10 ensures s[i] >= 128 {
      LebAt(n, i);
    }
    ReadLebIs(s);
  }

  lemma {:induction false} FrameCut(body: Code, s: Schema, was: Value, k: nat, more: seq<nat>)
    requires Proper(s) && HasType(s, was) && Versioned(s) && |body.fixups| + 1 < LIMIT && k < |Framed(body).bytes|
    ensures !Decode(s, was, Cut(Framed(body), k, more)).Got?
  {
    hide DecodeBody, Leb, ReadSize, HasType, Proper;
    var inp, n := Cut(Framed(body), k, more), |body.bytes|;
    assert inp.fixups[0] == n;
    if n <= k {
      assert inp.bytes[n..] == Leb(|body.fixups| + 1)[..k - n];
      SizeCut(|body.fixups| + 1, k - n, inp.fixups);
    }
  }

  lemma {:induction false} ContainerCut(s: Schema, v: Value, was: Value, k: nat, more: seq<nat>)
    requires Proper(s) && HasType(s, v) && HasType(s, was) && s.Container? && k < |EncodeBody(s, v).bytes| < LIMIT
    ensures var r := DecodeBody(s, was, Cut(EncodeBody(s, v), k, more));
      r.Got? ==> v.elems != [] && EndsOpen(s.elem, v.elems[|v.elems| - 1]) && r.rest.bytes == []
    decreases s, 0
  {
    hide Leb, ReadSize, DecodeList, EncodeList, EndsOpen;
    var size, elems := Leb(|v.elems|), EncodeList(s.elem, v.elems);
    var inp := Cut(EncodeBody(s, v), k, more);
    ListSize(s.elem, v.elems);
    if k < |size| {
      assert inp.bytes == size[..k];
      SizeCut(|v.elems|, k, inp.fixups);
    } else {
      var rest := Cut(elems, k - |size|, more);
      assert inp.bytes == size + rest.bytes && inp.fixups == [] + rest.fixups;
      SizeReads(|v.elems|, rest);
      ListCut(s.elem, v.elems, Resized(if s.resizable then was.elems else [], |v.elems|, s.elem.init), k - |size|,
              more);
    }
  }

  lemma {:induction false} OptionalCut(s: Schema, v: Value, was: Value, k: nat, more: seq<nat>)
    requires Proper(s) && HasType(s, v) && HasType(s, was) && s.Optional? && k < |EncodeBody(s, v).bytes| < LIMIT
    ensures var r := DecodeBody(s, was, Cut(EncodeBody(s, v), k, more));
      r.Got? ==> v.Present? && EndsOpen(s.elem, v.some) && r.rest.bytes == []
    decreases s, 0
  {
    if k > 0 {
      PresentCut(s, v, k, more);
      InitFits(s.elem);
      CutFails(s.elem, v.some, s.elem.init, k - 1, more);
    }
  }

  lemma {:induction false} PresentCut(s: Schema, v: Value, k: nat, more: seq<nat>)
    requires HasType(s, v) && s.Optional? && 0 < k < |EncodeBody(s, v).bytes|
    ensures v.Present? && k - 1 < |Encode(s.elem, v.some).bytes| == |EncodeBody(s, v).bytes| - 1
    ensures var inp, some := Cut(EncodeBody(s, v), k, more), Cut(Encode(s.elem, v.some), k - 1, more);
      inp.bytes != [] && inp.bytes[0] == 1 && inp.bytes[1..] == some.bytes && inp.fixups == some.fixups
  {
    hide Encode;
  }

  /** Where the cut is behind the first of several values. */
  lemma BehindFirst(first: Code, rest: Code, k: nat, more: seq<nat>)
    requires k <= |first.bytes| + |rest.bytes|
    ensures k < |first.bytes| ==> Cut(Join(first, rest), k, more) == Cut(first, k, rest.fixups + more)
    ensures k >= |first.bytes| ==>
              Cut(Join(first, rest), k, more) == Feed(first, Cut(rest, k - |first.bytes|, more))
  {
    assert k < |first.bytes| ==> Join(first, rest).bytes[..k] == first.bytes[..k];
    assert k >= |first.bytes| ==> Join(first, rest).bytes[..k] == first.bytes + rest.bytes[..k - |first.bytes|];
    assert first.fixups + rest.fixups + more == first.fixups + (rest.fixups + more);
  }

  lemma {:induction false} ListCut(elem: Schema, vs: seq<Value>, olds: seq<Value>, k: nat, more: seq<nat>)
    requires Proper(elem) && |olds| == |vs|
    requires (forall v | v in vs :: HasType(elem, v)) && (forall w | w in olds :: HasType(elem, w))
    requires k < |EncodeList(elem, vs).bytes| < LIMIT
    ensures var r := DecodeList(elem, olds, Cut(EncodeList(elem, vs), k, more));
      r.Got? ==> vs != [] && EndsOpen(elem, vs[|vs| - 1]) && r.rest.bytes == []
    decreases elem, 3, |vs|
  {
    hide Encode, Decode, HasType, Proper, Evolves, EndsOpen, Skippable, Cut;
    var first, rest := Encode(elem, vs[0]), EncodeList(elem, vs[1..]);
    BehindFirst(first, rest, k, more);
    if k < |first.bytes| {
      CutFails(elem, vs[0], olds[0], k, rest.fixups + more);
      var r := Decode(elem, olds[0], Cut(first, k, rest.fixups + more));
      if r.Got? {
        RestOfList(elem, vs, olds, r.rest);
      }
    } else {
      var tail := Cut(rest, k - |first.bytes|, more);
      EvolvesSame(elem);
      ReadsBack(elem, elem, vs[0], olds[0], tail);
      ListCut(elem, vs[1..], olds[1..], k - |first.bytes|, more);
    }
  }

  /** The elements behind the cut. */
  lemma {:induction false} RestOfList(elem: Schema, vs: seq<Value>, olds: seq<Value>, inp: Input)
    requires Proper(elem) && |olds| == |vs| > 0 && inp.bytes == []
    requires (forall v | v in vs :: HasType(elem, v)) && (forall w | w in olds :: HasType(elem, w))
    requires EndsOpen(elem, vs[0])
    ensures var r := DecodeList(elem, olds[1..], inp); r.Got? ==> EndsOpen(elem, vs[|vs| - 1]) && r.rest.bytes == []
  {
    hide Encode, Decode, HasType, Proper, EndsOpen, Skippable;
    if |vs| > 1 {
      if Skippable(elem) {
        SkipList(elem, olds[1..], inp);
        SkippableOpen(elem, vs[|vs| - 1]);
      } else {
        SkipEmpty(elem, olds[1], inp);
        ListFails(elem, olds[1..], inp);
      }
    }
  }

  lemma {:induction false} AllCut(types: seq<Schema>, vs: seq<Value>, olds: seq<Value>, k: nat, more: seq<nat>)
    requires (forall t | t in types :: Proper(t)) && HaveTypes(types, vs) && HaveTypes(types, olds)
    requires k < |EncodeAll(types, vs).bytes| < LIMIT
    ensures var r := DecodeAll(types, olds, Cut(EncodeAll(types, vs), k, more)); r.Got? ==> r.rest.bytes == []
    decreases types, 0
  {
    hide Encode, Decode, HasType, Proper, Evolves, EndsOpen;
    var inp := Cut(EncodeAll(types, vs), k, more);
    if inp.bytes == [] {
      NothingLeft(types, olds, inp);
    } else {
      var first, rest := Encode(types[0], vs[0]), EncodeAll(types[1..], vs[1..]);
      assert types[0] in types;
      BehindFirst(first, rest, k, more);
      if k < |first.bytes| {
        CutFails(types[0], vs[0], olds[0], k, rest.fixups + more);
        var r := Decode(types[0], olds[0], inp);
        if r.Got? {
          NothingLeft(types[1..], olds[1..], r.rest);
        }
      } else {
        var tail := Cut(rest, k - |first.bytes|, more);
        EvolvesSame(types[0]);
        ReadsBack(types[0], types[0], vs[0], olds[0], tail);
        if tail.bytes == [] {
          NothingLeft(types[1..], olds[1..], tail);
        } else {
          AllCut(types[1..], vs[1..], olds[1..], k - |first.bytes|, more);
        }
      }
    }
  }

  /** A value that ends with such a pair can be cut off where nobody notices. */
  lemma {:induction false} CutPasses(s: Schema, v: Value, was: Value, more: seq<nat>) returns (k: nat)
    requires Proper(s) && HasType(s, v) && HasType(s, was) && EndsOpen(s, v) && |Encode(s, v).bytes| < LIMIT
    ensures k < |Encode(s, v).bytes| && Decode(s, was, Cut(Encode(s, v), k, more)).Got?
    decreases s, 2
  {
    hide Leb, ReadSize, EncodeList, DecodeList, EncodeAll, DecodeAll;
    CodeSize(s, v);
    match s
    case Pair(_, types) =>
      k := 0;
      NothingLeft(types, was.members, Cut(Encode(s, v), 0, more));
    case BuiltinArray(_, _, elem) =>
      k := ListPasses(elem, v.members, was.members, more);
    case Container(_, _, elem) =>
      var size := Leb(|v.elems|);
      var olds := Resized(if s.resizable then was.elems else [], |v.elems|, elem.init);
      ListSize(elem, v.elems);
      var n := ListPasses(elem, v.elems, olds, more);
      k := |size| + n;
      var rest := Cut(EncodeList(elem, v.elems), n, more);
      var inp := Cut(Encode(s, v), k, more);
      assert inp.bytes == size + rest.bytes && inp.fixups == [] + rest.fixups;
      SizeReads(|v.elems|, rest);
    case Optional(_, elem) =>
      InitFits(elem);
      var n := CutPasses(elem, v.some, elem.init, more);
      k := n + 1;
      PresentCut(s, v, k, more);
  }

  lemma {:induction false} ListPasses(elem: Schema, vs: seq<Value>, olds: seq<Value>, more: seq<nat>) returns (k: nat)
    requires Proper(elem) && |olds| == |vs| > 0
    requires (forall v | v in vs :: HasType(elem, v)) && (forall w | w in olds :: HasType(elem, w))
    requires EndsOpen(elem, vs[|vs| - 1]) && |EncodeList(elem, vs).bytes| < LIMIT
    ensures k < |EncodeList(elem, vs).bytes| && DecodeList(elem, olds, Cut(EncodeList(elem, vs), k, more)).Got?
    decreases elem, 3, |vs|
  {
    hide Encode, Decode, HasType, Proper, Evolves, EndsOpen, Cut;
    var first, rest := Encode(elem, vs[0]), EncodeList(elem, vs[1..]);
    if |vs| == 1 {
      k := CutPasses(elem, vs[0], olds[0], rest.fixups + more);
      BehindFirst(first, rest, k, more);
    } else {
      var n := ListPasses(elem, vs[1..], olds[1..], more);
      k := |first.bytes| + n;
      BehindFirst(first, rest, k, more);
      EvolvesSame(elem);
      ReadsBack(elem, elem, vs[0], olds[0], Cut(rest, n, more));
    }
  }

  /** Cutting a value off goes unnoticed at some place if and only if it ends with a pair that no versioned value is
      around. */
  lemma CutNoticed(s: Schema, v: Value, was: Value, more: seq<nat>)
    requires Proper(s) && HasType(s, v) && HasType(s, was) && |Encode(s, v).bytes| < LIMIT
    ensures (forall k | 0 <= k < |Encode(s, v).bytes| :: !Decode(s, was, Cut(Encode(s, v), k, more)).Got?)
            <==> !EndsOpen(s, v)
  {
    hide Encode, Decode, HasType, Proper, EndsOpen, Cut;
    if EndsOpen(s, v) {
      var k := CutPasses(s, v, was, more);
    } else {
      forall k | 0 <= k < |Encode(s, v).bytes| ensures !Decode(s, was, Cut(Encode(s, v), k, more)).Got? {
        CutFails(s, v, was, k, more);
      }
    }
  }

  // ------------------------------------------------------------------ fixups

  /** Without one of its fixups no value is read. */
  lemma {:induction false} FixupMissing(s: Schema, v: Value, was: Value, j: nat, more: seq<Byte>)
    requires Proper(s) && HasType(s, v) && HasType(s, was) && |Encode(s, v).bytes| < LIMIT
    requires j < |Encode(s, v).fixups|
    ensures !Decode(s, was, Input(Encode(s, v).bytes + more, Encode(s, v).fixups[..j])).Got?
    decreases s, 2
  {
    hide Leb, ReadSize, EncodeList, DecodeList, EncodeAll, DecodeAll;
    if Versioned(s) {
      BodySize(s, v);
      FrameMissing(EncodeBody(s, v), s, was, j, more);
    } else {
      match s
      case Bits(_, _) =>
      case Pair(_, types) => AllMissing(types, v.members, was.members, j, more);
      case BuiltinArray(_, _, elem) => ListMissing(elem, v.members, was.members, j, more);
      case Container(_, _, elem) =>
        var elems := EncodeList(elem, v.elems);
        var rest := Input(elems.bytes + more, elems.fixups[..j]);
        ListSize(elem, v.elems);
        assert Encode(s, v).bytes + more == Leb(|v.elems|) + rest.bytes;
        assert Encode(s, v).fixups == elems.fixups && [] + rest.fixups == rest.fixups;
        SizeReads(|v.elems|, rest);
        ListMissing(elem, v.elems, Resized(if s.resizable then was.elems else [], |v.elems|, elem.init), j, more);
      case Optional(_, elem) =>
        var some := Encode(elem, v.some);
        assert (Encode(s, v).bytes + more)[1..] == some.bytes + more && Encode(s, v).fixups == some.fixups;
        InitFits(elem);
        FixupMissing(elem, v.some, elem.init, j, more);
    }
  }

  lemma {:induction false} FrameMissing(body: Code, s: Schema, was: Value, j: nat, more: seq<Byte>)
    requires Proper(s) && HasType(s, was) && Versioned(s) && |body.fixups| + 1 < LIMIT && j <= |body.fixups|
    ensures !Decode(s, was, Input(Framed(body).bytes + more, Framed(body).fixups[..j])).Got?
  {
    hide DecodeBody, Leb, ReadSize, HasType, Proper;
    var inp, n := Input(Framed(body).bytes + more, Framed(body).fixups[..j]), |body.bytes|;
    if j > 0 {
      assert inp.fixups[0] == n && inp.bytes[n..] == Leb(|body.fixups| + 1) + more;
      SizeReads(|body.fixups| + 1, Input(more, inp.fixups));
      assert [] + inp.fixups == inp.fixups;
    }
  }

  /** Where the first fixup that is missing belongs behind the first of several values. */
  lemma MissingBehind(first: Code, rest: Code, j: nat, more: seq<Byte>)
    requires j <= |first.fixups| + |rest.fixups|
    ensures var inp := Input(Join(first, rest).bytes + more, Join(first, rest).fixups[..j]);
      && (j < |first.fixups| ==> inp == Input(first.bytes + (rest.bytes + more), first.fixups[..j]))
      && (j >= |first.fixups| ==>
            inp == Feed(first, Input(rest.bytes + more, rest.fixups[..j - |first.fixups|])))
  {
    assert first.bytes + rest.bytes + more == first.bytes + (rest.bytes + more);
    assert j < |first.fixups| ==> (first.fixups + rest.fixups)[..j] == first.fixups[..j];
    assert j >= |first.fixups| ==>
        (first.fixups + rest.fixups)[..j] == first.fixups + rest.fixups[..j - |first.fixups|];
  }

  lemma {:induction false} ListMissing(elem: Schema, vs: seq<Value>, olds: seq<Value>, j: nat, more: seq<Byte>)
    requires Proper(elem) && |olds| == |vs|
    requires (forall v | v in vs :: HasType(elem, v)) && (forall w | w in olds :: HasType(elem, w))
    requires |EncodeList(elem, vs).bytes| < LIMIT && j < |EncodeList(elem, vs).fixups|
    ensures !DecodeList(elem, olds, Input(EncodeList(elem, vs).bytes + more, EncodeList(elem, vs).fixups[..j])).Got?
    decreases elem, 3, |vs|
  {
    hide Encode, Decode, HasType, Proper, Evolves;
    var first, rest := Encode(elem, vs[0]), EncodeList(elem, vs[1..]);
    MissingBehind(first, rest, j, more);
    if j < |first.fixups| {
      FixupMissing(elem, vs[0], olds[0], j, rest.bytes + more);
    } else {
      var tail := Input(rest.bytes + more, rest.fixups[..j - |first.fixups|]);
      EvolvesSame(elem);
      ReadsBack(elem, elem, vs[0], olds[0], tail);
      ListMissing(elem, vs[1..], olds[1..], j - |first.fixups|, more);
    }
  }

  lemma {:induction false} AllMissing(types: seq<Schema>, vs: seq<Value>, olds: seq<Value>, j: nat, more: seq<Byte>)
    requires (forall t | t in types :: Proper(t)) && HaveTypes(types, vs) && HaveTypes(types, olds)
    requires |EncodeAll(types, vs).bytes| < LIMIT && j < |EncodeAll(types, vs).fixups|
    ensures !DecodeAll(types, olds, Input(EncodeAll(types, vs).bytes + more, EncodeAll(types, vs).fixups[..j])).Got?
    decreases types, 0
  {
    hide Encode, Decode, HasType, Proper, Evolves;
    var first, rest := Encode(types[0], vs[0]), EncodeAll(types[1..], vs[1..]);
    assert types[0] in types;
    CodeSize(types[0], vs[0]);
    MissingBehind(first, rest, j, more);
    if j < |first.fixups| {
      FixupMissing(types[0], vs[0], olds[0], j, rest.bytes + more);
    } else {
      var tail := Input(rest.bytes + more, rest.fixups[..j - |first.fixups|]);
      EvolvesSame(types[0]);
      ReadsBack(types[0], types[0], vs[0], olds[0], tail);
      AllMissing(types[1..], vs[1..], olds[1..], j - |first.fixups|, more);
    }
  }
}
