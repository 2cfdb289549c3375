/** The rest of the header cluster: extensions, up to the terminator. */
module Qcow2Extensions {
  import opened Arith
  import opened Bytes

  const BACKING_FORMAT: nat := 0xe279_2aca
  const FEATURE_NAMES: nat := 0x6803_f857
  const BITMAPS: nat := 0x2385_2875
  const ENCRYPTION: nat := 0x0537_be77
  const EXTERNAL_DATA: nat := 0x4441_5441
  const NAME_ENTRY: nat := 48

  /** The entries of a feature name table name a known kind of feature and a bit of 64. */
  ghost predicate GoodNames(data: seq<byte>) {
    && |data| % NAME_ENTRY == 0
    && forall k: nat :: NAME_ENTRY * k < |data| ==> GoodName(data, k)
  }

  ghost predicate GoodName(data: seq<byte>, k: nat) {
    NAME_ENTRY * k + 1 < |data| && data[NAME_ENTRY * k] <= 2 && data[NAME_ENTRY * k + 1] <= 63
  }

  /** Extensions for features that are not supported are refused; unknown ones are left alone. */
  ghost predicate Permitted(kind: nat, data: seq<byte>) {
    && kind !in {BACKING_FORMAT, BITMAPS, ENCRYPTION, EXTERNAL_DATA}
    && (kind == FEATURE_NAMES ==> GoodNames(data))
  }

  /** An extension and the padding behind it, whose bytes are not looked at. */
  datatype Extension = Extension(kind: nat, data: seq<byte>, pad: seq<byte>) {
    ghost predicate Good() {
      && 0 < kind < 0x1_0000_0000 && |data| < 0x1_0000_0000
      && |data| + |pad| == AlignUp(|data|, 8)
      && Permitted(kind, data)
    }

    function Encode(): seq<byte> { ToBe(kind, 4) + ToBe(|data|, 4) + data + pad }
  }

  function EncodeAll(es: seq<Extension>): seq<byte> {
    if es == [] then [] else es[0].Encode() + EncodeAll(es[1..])
  }

  /** All good, no kind twice and none of `seen`. */
  ghost predicate AllGood(es: seq<Extension>, seen: set<nat>) {
    && (forall i :: 0 <= i < |es| ==> es[i].Good() && es[i].kind !in seen)
    && (forall i, j :: 0 <= i < j < |es| ==> es[i].kind != es[j].kind)
  }

  /** The end of the area, or a terminator with anything behind it. */
  predicate Ends(tail: seq<byte>) { tail == [] || (|tail| >= 8 && tail[..8] == Zeros(8)) }

  /** What the area must look like. */
  ghost predicate Describes(area: seq<byte>, seen: set<nat>, es: seq<Extension>, tail: seq<byte>) {
    area == EncodeAll(es) + tail && Ends(tail) && AllGood(es, seen)
  }

  /** Reading the area record by record. */
  ghost predicate Accepted(area: seq<byte>, seen: set<nat>)
    decreases |area|
  {
    if area == [] then true
    else if |area| < 8 then false
    else
      var kind, length := BeAt(area, 0, 4), BeAt(area, 4, 4);
      if kind == 0 then length == 0
      else
        var padded := AlignUp(length, 8);
        && kind !in seen && padded <= |area| - 8
        && Permitted(kind, area[8..8 + length])
        && Accepted(area[8 + padded..], seen + {kind})
  }

  /** The first record of an area. */
  lemma FirstRecord(e: Extension, rest: seq<byte>)
    requires e.Good()
    ensures var area := e.Encode() + rest;
            && |area| >= 8 && BeAt(area, 0, 4) == e.kind && BeAt(area, 4, 4) == |e.data|
            && 8 + AlignUp(|e.data|, 8) <= |area|
            && area[8..8 + |e.data|] == e.data && area[8 + AlignUp(|e.data|, 8)..] == rest
  {
    var area := e.Encode() + rest;
    Pow256Values();
    FromToBe(e.kind, 4);
    FromToBe(|e.data|, 4);
    hide FromBe, ToBe;
    assert area[0..4] == ToBe(e.kind, 4);
    assert area[4..8] == ToBe(|e.data|, 4);
  }

  lemma {:induction false} DescribedAccepted(area: seq<byte>, seen: set<nat>, es: seq<Extension>, tail: seq<byte>)
    requires Describes(area, seen, es, tail)
    ensures Accepted(area, seen)
    decreases |es|
  {
    if es == [] {
      assert area == tail;
      if tail != [] {
        assert area[0..4] == Zeros(4) && area[4..8] == Zeros(4);
        ZeroNumber();
      }
    } else {
      var rest := EncodeAll(es[1..]) + tail;
      assert area == es[0].Encode() + rest;
      FirstRecord(es[0], rest);
      assert Describes(rest, seen + {es[0].kind}, es[1..], tail);
      DescribedAccepted(rest, seen + {es[0].kind}, es[1..], tail);
    }
  }

  lemma ZeroNumber()
    ensures FromBe(Zeros(4)) == 0
  {
    FromBeZeros(Zeros(4));
  }

  lemma ZeroBytes(s: seq<byte>)
    requires |s| == 4 && FromBe(s) == 0
    ensures s == Zeros(4)
  {
    ToFromBe(s);
    ZeroNumber();
    ToFromBe(Zeros(4));
  }

  lemma {:induction false} AcceptedDescribed(area: seq<byte>, seen: set<nat>)
    returns (es: seq<Extension>, tail: seq<byte>)
    requires Accepted(area, seen)
    ensures Describes(area, seen, es, tail)
    decreases |area|
  {
    hide FromBe, ToBe, Describes;
    if area == [] {
      es, tail := [], [];
      NoneDescribed(area, seen);
    } else {
      var kind, length := BeAt(area, 0, 4), BeAt(area, 4, 4);
      if kind == 0 {
        ZeroBytes(area[0..4]);
        ZeroBytes(area[4..8]);
        assert area[..8] == area[0..4] + area[4..8];
        es, tail := [], area;
        NoneDescribed(area, seen);
      } else {
        var padded := AlignUp(length, 8);
        var e := Extension(kind, area[8..8 + length], area[8 + length..8 + padded]);
        var rest := area[8 + padded..];
        FirstEncoded(area, e);
        var es', tail' := AcceptedDescribed(rest, seen + {kind});
        es, tail := [e] + es', tail';
        OneMoreDescribed(area, seen, e, rest, es', tail');
      }
    }
  }

  lemma NoneDescribed(area: seq<byte>, seen: set<nat>)
    requires Ends(area)
    ensures Describes(area, seen, [], area)
  {
    assert EncodeAll([]) + area == area;
  }

  lemma OneMoreDescribed(area: seq<byte>, seen: set<nat>, e: Extension, rest: seq<byte>, es: seq<Extension>,
                         tail: seq<byte>)
    requires area == e.Encode() + rest && e.Good() && e.kind !in seen && Describes(rest, seen + {e.kind}, es, tail)
    ensures Describes(area, seen, [e] + es, tail)
  {
    hide Extension.Encode, Extension.Good;
    assert ([e] + es)[1..] == es;
    assert e.Encode() + (EncodeAll(es) + tail) == e.Encode() + EncodeAll(es) + tail;
  }

  lemma FirstEncoded(area: seq<byte>, e: Extension)
    requires |area| >= 8 && e.kind == BeAt(area, 0, 4) && |e.data| == BeAt(area, 4, 4)
    requires 8 + |e.data| + |e.pad| <= |area|
    requires e.data == area[8..8 + |e.data|] && e.pad == area[8 + |e.data|..8 + |e.data| + |e.pad|]
    ensures area == e.Encode() + area[8 + |e.data| + |e.pad|..] && e.kind < 0x1_0000_0000 && |e.data| < 0x1_0000_0000
  {
    ToFromBe(area[0..4]);
    ToFromBe(area[4..8]);
    Pow256Values();
    hide FromBe, ToBe;
  }

  /** Reading accepts exactly the areas that are a list of good, distinct extensions. */
  lemma AcceptedIff(area: seq<byte>)
    ensures Accepted(area, {}) <==> exists es, tail :: Describes(area, {}, es, tail)
  {
    if Accepted(area, {}) {
      var es, tail := AcceptedDescribed(area, {});
    }
    if es, tail :| Describes(area, {}, es, tail) {
      DescribedAccepted(area, {}, es, tail);
    }
  }

  method ValidateHeaderExtension(kind: nat, data: seq<byte>) returns (ok: bool)
    ensures ok <==> Permitted(kind, data)
  {
    if kind == BACKING_FORMAT || kind == BITMAPS || kind == ENCRYPTION || kind == EXTERNAL_DATA {
      return false;
    }
    if kind == FEATURE_NAMES {
      if |data| % NAME_ENTRY != 0 {
        return false;
      }
      var k := 0;
      while NAME_ENTRY * k < |data|
        invariant forall h: nat :: h < k ==> GoodName(data, h)
      {
        if data[NAME_ENTRY * k] > 2 || data[NAME_ENTRY * k + 1] > 63 {
          assert !GoodName(data, k);
          return false;
        }
        k := k + 1;
      }
    }
    return true;
  }

  method ValidateHeaderExtensions(area: seq<byte>) returns (ok: bool)
    ensures ok <==> Accepted(area, {})
  {
    hide Permitted;
    var rest := area;
    var seen: set<nat> := {};
    while rest != []
      invariant Accepted(area, {}) <==> Accepted(rest, seen)
      decreases |rest|
    {
      if |rest| < 8 {
        return false;
      }
      var kind, length := BeAt(rest, 0, 4), BeAt(rest, 4, 4);
      if kind == 0 {
        return length == 0;
      }
      if kind in seen {
        return false;
      }
      var padded := AlignUp(length, 8);
      if padded > |rest| - 8 {
        return false;
      }
      ok := ValidateHeaderExtension(kind, rest[8..8 + length]);
      if !ok {
        return;
      }
      seen := seen + {kind};
      rest := rest[8 + padded..];
    }
    return true;
  }
}
