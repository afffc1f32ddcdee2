/** The `adl` serializer (reflection/adl.h): values of named types, optionals,
  * strings, vectors, iobufs, enums, integers, bool classes and plain structs
  * are written into an iobuf little-endian, field by field, and read back
  * from a parser cursor in the same order. */
module Adl {
  import opened Common
  import opened IobufModel

  /** sizeof of an integral type. */
  type Width = w: nat | w >= 1 witness 1

  /** The shapes of types `adl<T>` dispatches on. */
  datatype Ty =
    | TInt(width: Width, signed: bool)   // an integral type with sizeof == width
    | TEnum(width: Width, signed: bool)  // an enum, through its underlying integral type
    | TBool                            // ss::bool_class, as an int8
    | TString                          // ss::sstring
    | TIobuf                           // iobuf
    | TOptional(elem: Ty)              // std::optional<elem>
    | TVector(elem: Ty)                // std::vector<elem>
    | TNamed(inner: Ty)                // named_type<inner, Tag>
    | TStruct(fields: seq<Ty>)         // a standard-layout struct, its fields in order

  datatype Value =
    | VInt(i: int)
    | VBool(b: bool)
    | VBytes(bytes: seq<byte>)
    | VNone
    | VSome(v: Value)
    | VVector(elems: seq<Value>)
    | VNamed(inner: Value)
    | VStruct(fields: seq<Value>)

  /** Exceptions the parser raises: too few bytes (or a negative length
    * converted to a huge size_t), and `vector::reserve` of a negative count. */
  datatype DecodeError = OutOfRange | LengthError

  function TySize(t: Ty): (n: nat)
    ensures n >= 1
  {
    match t
    case TOptional(e) => 1 + TySize(e)
    case TVector(e) => 1 + TySize(e)
    case TNamed(e) => 1 + TySize(e)
    case TStruct(ts) => 1 + TysSize(ts)
    case _ => 1
  }

  function TysSize(ts: seq<Ty>): nat
  {
    if ts == [] then 0 else TySize(ts[0]) + TysSize(ts[1..])
  }

  // ---------------------------------------------------------------------------
  // Little-endian integers.

  function Pow256(w: nat): (p: nat)
    ensures p >= 1
  {
    if w == 0 then 1 else 256 * Pow256(w - 1)
  }

  /** The `w` low-order bytes of `u`, least significant first. */
  function LE(u: nat, w: nat): (bs: seq<byte>)
    ensures |bs| == w
  {
    if w == 0 then [] else [u % 256] + LE(u / 256, w - 1)
  }

  function FromLE(bs: seq<byte>): nat
  {
    if bs == [] then 0 else bs[0] + 256 * FromLE(bs[1..])
  }

  lemma {:induction false} FromLEBound(bs: seq<byte>)
    ensures FromLE(bs) < Pow256(|bs|)
  {
    if bs != [] {
      FromLEBound(bs[1..]);
    }
  }

  lemma {:induction false} LERoundTrip(u: nat, w: nat)
    requires u < Pow256(w)
    ensures FromLE(LE(u, w)) == u
  {
    if w > 0 {
      assert u / 256 < Pow256(w - 1);
      LERoundTrip(u / 256, w - 1);
      assert LE(u, w)[1..] == LE(u / 256, w - 1);
    }
  }

  /** Integers with sizeof == w bytes, signed or not. */
  predicate InRange(i: int, w: nat, signed: bool)
  {
    var p: int := Pow256(w);
    if signed then -(p / 2) <= i < p / 2 else 0 <= i < p
  }

  /** The two's-complement bit pattern of `i`, as an unsigned number. */
  function ToUnsigned(i: int, w: nat): nat
    requires -(Pow256(w) as int) <= i < Pow256(w)
  {
    if i < 0 then i + Pow256(w) else i
  }

  function FromUnsigned(u: nat, w: nat, signed: bool): int
  {
    if signed && u >= Pow256(w) / 2 then u - Pow256(w) else u
  }

  /** `int32_t(n)` of an unsigned size, as the conversion wraps modulo 2^32. */
  function Int32OfSize(n: nat): int
  {
    FromUnsigned(n % Pow256(4), 4, true)
  }

  function EncodeInt(i: int, w: nat, signed: bool): (bs: seq<byte>)
    requires InRange(i, w, signed)
    ensures |bs| == w
  {
    LE(ToUnsigned(i, w), w)
  }

  function DecodeInt(bs: seq<byte>, signed: bool): int
  {
    FromUnsigned(FromLE(bs), |bs|, signed)
  }

  /** Read back as a little-endian number, the `sizeof` bytes of an integer
    * give its two's-complement bit pattern, and decoding gives the integer. */
  lemma IntRoundTrip(i: int, w: nat, signed: bool)
    requires InRange(i, w, signed)
    ensures FromLE(EncodeInt(i, w, signed)) == ToUnsigned(i, w)
    ensures DecodeInt(EncodeInt(i, w, signed), signed) == i
  {
    LERoundTrip(ToUnsigned(i, w), w);
  }

  lemma DecodeIntInRange(bs: seq<byte>, signed: bool)
    requires |bs| >= 1
    ensures InRange(DecodeInt(bs, signed), |bs|, signed)
  {
    FromLEBound(bs);
    var p := Pow256(|bs|);
    var half := 128 * Pow256(|bs| - 1);
    assert p == 2 * half && p / 2 == half;
    var u := FromLE(bs);
    assert DecodeInt(bs, signed) == if signed && u >= half then u - p else u;
  }

  /** 2^31: lengths below it survive the int32 length prefix. */
  const Int32Limit: nat := 0x8000_0000

  lemma Pow256Four()
    ensures Pow256(4) == 2 * Int32Limit
  {
    assert Pow256(1) == 256;
    assert Pow256(2) == 65536;
    assert Pow256(3) == 16777216;
  }

  /** The int32 length prefix of strings, iobufs and vectors. */
  function EncodeLength(n: nat): (bs: seq<byte>)
    ensures |bs| == 4
  {
    LE(n % Pow256(4), 4)
  }

  lemma LengthRoundTrip(n: nat)
    requires n < Int32Limit
    ensures DecodeInt(EncodeLength(n), true) == n
  {
    Pow256Four();
    LERoundTrip(n % Pow256(4), 4);
  }

  // ---------------------------------------------------------------------------
  // Which values belong to which types.


  predicate WellTyped(t: Ty, v: Value)
    decreases TySize(t), 1
  {
    match t
    case TInt(w, s) => v.VInt? && InRange(v.i, w, s)
    case TEnum(w, s) => v.VInt? && InRange(v.i, w, s)
    case TBool => v.VBool?
    case TString => v.VBytes?
    case TIobuf => v.VBytes?
    case TOptional(e) => v.VNone? || (v.VSome? && WellTyped(e, v.v))
    case TVector(e) => v.VVector? && AllWellTyped(e, v.elems)
    case TNamed(e) => v.VNamed? && WellTyped(e, v.inner)
    case TStruct(ts) => v.VStruct? && FieldsWellTyped(ts, v.fields)
  }

  predicate AllWellTyped(e: Ty, vs: seq<Value>)
    decreases TySize(e), 2, |vs|
  {
    forall i | 0 <= i < |vs| :: WellTyped(e, vs[i])
  }

  predicate FieldsWellTyped(ts: seq<Ty>, vs: seq<Value>)
    decreases TysSize(ts), 2
  {
    |ts| == |vs| && (ts != [] ==> WellTyped(ts[0], vs[0]) && FieldsWellTyped(ts[1..], vs[1..]))
  }

  /** Length prefixes are int32: a string, iobuf or vector of 2^31 or more
    * elements wraps to a wrong length on the wire. */
  predicate Fits(t: Ty, v: Value)
    requires WellTyped(t, v)
    decreases TySize(t), 1
  {
    match t
    case TString => |v.bytes| < Int32Limit
    case TIobuf => |v.bytes| < Int32Limit
    case TOptional(e) => v.VSome? ==> Fits(e, v.v)
    case TVector(e) => |v.elems| < Int32Limit && AllFit(e, v.elems)
    case TNamed(e) => Fits(e, v.inner)
    case TStruct(ts) => FieldsFit(ts, v.fields)
    case _ => true
  }

  predicate AllFit(e: Ty, vs: seq<Value>)
    requires AllWellTyped(e, vs)
    decreases TySize(e), 2, |vs|
  {
    forall i | 0 <= i < |vs| :: Fits(e, vs[i])
  }

  predicate FieldsFit(ts: seq<Ty>, vs: seq<Value>)
    requires FieldsWellTyped(ts, vs)
    decreases TysSize(ts), 2
  {
    ts != [] ==> Fits(ts[0], vs[0]) && FieldsFit(ts[1..], vs[1..])
  }

  /** A struct's fields are well typed exactly when each field is. */
  lemma {:induction false} FieldsWellTypedIff(ts: seq<Ty>, vs: seq<Value>)
    ensures FieldsWellTyped(ts, vs) <==>
      |ts| == |vs| && forall i | 0 <= i < |ts| :: WellTyped(ts[i], vs[i])
    decreases |ts|
  {
    if ts != [] && |ts| == |vs| {
      FieldsWellTypedIff(ts[1..], vs[1..]);
      if forall i | 0 <= i < |ts| :: WellTyped(ts[i], vs[i]) {
        assert forall i | 0 <= i < |ts| - 1 :: WellTyped(ts[1..][i], vs[1..][i]) by {
          forall i | 0 <= i < |ts| - 1 ensures WellTyped(ts[1..][i], vs[1..][i]) {
            assert ts[1..][i] == ts[i + 1] && vs[1..][i] == vs[i + 1];
          }
        }
      }
      if FieldsWellTyped(ts, vs) {
        forall i | 0 <= i < |ts| ensures WellTyped(ts[i], vs[i]) {
          if i > 0 { assert ts[1..][i - 1] == ts[i] && vs[1..][i - 1] == vs[i]; }
        }
      }
    }
  }

  /** ... and they fit the length prefixes exactly when each field does. */
  lemma {:induction false} FieldsFitIff(ts: seq<Ty>, vs: seq<Value>)
    requires FieldsWellTyped(ts, vs)
    ensures FieldsWellTyped(ts, vs) && |ts| == |vs|
    ensures forall i | 0 <= i < |ts| :: WellTyped(ts[i], vs[i])
    ensures FieldsFit(ts, vs) <==> forall i | 0 <= i < |ts| :: Fits(ts[i], vs[i])
    decreases |ts|
  {
    FieldsWellTypedIff(ts, vs);
    if ts != [] {
      FieldsFitIff(ts[1..], vs[1..]);
      if forall i | 0 <= i < |ts| :: Fits(ts[i], vs[i]) {
        forall i | 0 <= i < |ts| - 1 ensures Fits(ts[1..][i], vs[1..][i]) {
          assert ts[1..][i] == ts[i + 1] && vs[1..][i] == vs[i + 1];
        }
      }
      if FieldsFit(ts, vs) {
        forall i | 0 <= i < |ts| ensures Fits(ts[i], vs[i]) {
          if i > 0 { assert ts[1..][i - 1] == ts[i] && vs[1..][i - 1] == vs[i]; }
        }
      }
    }
  }

  /** Any suffix of a struct's fields is well typed, and its encoding starts
    * with the encoding of its first field. */
  lemma {:induction false} FieldsSuffix(ts: seq<Ty>, vs: seq<Value>, k: nat)
    requires FieldsWellTyped(ts, vs) && k <= |ts|
    ensures FieldsWellTyped(ts[k..], vs[k..])
    ensures k < |ts| ==> (WellTyped(ts[k], vs[k]) &&
      EncodeFields(ts[k..], vs[k..]) == Encode(ts[k], vs[k]) + EncodeFields(ts[k + 1..], vs[k + 1..]))
    decreases k
  {
    if k == 0 {
      assert ts[0..] == ts && vs[0..] == vs;
      if ts != [] { assert ts[1..] == ts[k + 1..] && vs[1..] == vs[k + 1..]; }
    } else {
      FieldsSuffix(ts[1..], vs[1..], k - 1);
      assert ts[1..][k - 1..] == ts[k..] && vs[1..][k - 1..] == vs[k..];
      if k < |ts| { assert ts[1..][k..] == ts[k + 1..] && vs[1..][k..] == vs[k + 1..]; }
    }
  }

  // ---------------------------------------------------------------------------
  // adl<T>::to, as the bytes it appends.

  function Encode(t: Ty, v: Value): seq<byte>
    requires WellTyped(t, v)
    decreases TySize(t), 1
  {
    match t
    case TInt(w, s) => EncodeInt(v.i, w, s)
    case TEnum(w, s) => EncodeInt(v.i, w, s)
    case TBool => [if v.b then 1 else 0]
    case TString => EncodeLength(|v.bytes|) + v.bytes
    case TIobuf => EncodeLength(|v.bytes|) + v.bytes
    case TOptional(e) => if v.VSome? then [1] + Encode(e, v.v) else [0]
    case TVector(e) => EncodeLength(|v.elems|) + EncodeAll(e, v.elems)
    case TNamed(e) => Encode(e, v.inner)
    case TStruct(ts) => EncodeFields(ts, v.fields)
  }

  function EncodeAll(e: Ty, vs: seq<Value>): seq<byte>
    requires AllWellTyped(e, vs)
    decreases TySize(e), 2, |vs|
  {
    if vs == [] then [] else Encode(e, vs[0]) + EncodeAll(e, vs[1..])
  }

  function EncodeFields(ts: seq<Ty>, vs: seq<Value>): seq<byte>
    requires FieldsWellTyped(ts, vs)
    decreases TysSize(ts), 2
  {
    if ts == [] then [] else Encode(ts[0], vs[0]) + EncodeFields(ts[1..], vs[1..])
  }

  lemma {:induction false} EncodeAllSnoc(e: Ty, vs: seq<Value>, x: Value)
    requires AllWellTyped(e, vs) && WellTyped(e, x)
    ensures AllWellTyped(e, vs + [x])
    ensures EncodeAll(e, vs + [x]) == EncodeAll(e, vs) + Encode(e, x)
    decreases |vs|
  {
    if vs != [] {
      assert (vs + [x])[1..] == vs[1..] + [x];
      EncodeAllSnoc(e, vs[1..], x);
    } else {
      assert vs + [x] == [x];
    }
  }

  lemma {:induction false} EncodeFieldsSnoc(ts: seq<Ty>, vs: seq<Value>, t: Ty, x: Value)
    requires FieldsWellTyped(ts, vs) && WellTyped(t, x)
    ensures FieldsWellTyped(ts + [t], vs + [x])
    ensures EncodeFields(ts + [t], vs + [x]) == EncodeFields(ts, vs) + Encode(t, x)
    decreases |ts|
  {
    if ts != [] {
      assert (ts + [t])[1..] == ts[1..] + [t];
      assert (vs + [x])[1..] == vs[1..] + [x];
      EncodeFieldsSnoc(ts[1..], vs[1..], t, x);
    } else {
      assert ts + [t] == [t] && vs + [x] == [x];
      assert FieldsWellTyped([t][1..], [x][1..]);
    }
  }

  lemma {:induction false} FieldsPrefix(ts: seq<Ty>, vs: seq<Value>, k: nat)
    requires FieldsWellTyped(ts, vs) && k <= |ts|
    ensures FieldsWellTyped(ts[..k], vs[..k])
    ensures k < |ts| ==> WellTyped(ts[k], vs[k])
    decreases k
  {
    if k > 0 {
      FieldsPrefix(ts[1..], vs[1..], k - 1);
      assert ts[..k][1..] == ts[1..][..k - 1];
      assert vs[..k][1..] == vs[1..][..k - 1];
    } else if ts != [] {
      assert FieldsWellTyped(ts[..0], vs[..0]);
    }
  }

  // ---------------------------------------------------------------------------
  // adl<T>::from, as a function of the bytes still unread; the result
  // pairs the value with the bytes it left for the next reader.

  type Decoded = Result<(Value, seq<byte>), DecodeError>

  /** A fixed-size read (`consume_type`). */
  function Take(s: seq<byte>, n: nat): Result<(seq<byte>, seq<byte>), DecodeError>
  {
    if |s| < n then Err(OutOfRange) else Ok((s[..n], s[n..]))
  }

  function Decode(t: Ty, s: seq<byte>): Decoded
    decreases TySize(t), 1, 0
  {
    match t
    case TInt(w, sg) =>
      if |s| < w then Err(OutOfRange) else Ok((VInt(DecodeInt(s[..w], sg)), s[w..]))
    case TEnum(w, sg) =>
      if |s| < w then Err(OutOfRange) else Ok((VInt(DecodeInt(s[..w], sg)), s[w..]))
    case TBool =>
      if |s| < 1 then Err(OutOfRange) else Ok((VBool(s[0] != 0), s[1..]))
    case TString => DecodeBytes(s)
    case TIobuf => DecodeBytes(s)
    case TOptional(e) =>
      if |s| < 1 then Err(OutOfRange)
      else if s[0] == 0 then Ok((VNone, s[1..]))
      else (match Decode(e, s[1..])
        case Ok((v, rest)) => Ok((VSome(v), rest))
        case Err(x) => Err(x))
    case TVector(e) =>
      if |s| < 4 then Err(OutOfRange)
      else
        var n := DecodeInt(s[..4], true);
        if n < 0 then Err(LengthError)
        else (match DecodeN(e, n, s[4..])
          case Ok((vs, rest)) => Ok((VVector(vs), rest))
          case Err(x) => Err(x))
    case TNamed(e) =>
      (match Decode(e, s)
      case Ok((v, rest)) => Ok((VNamed(v), rest))
      case Err(x) => Err(x))
    case TStruct(ts) =>
      match DecodeFields(ts, s)
      case Ok((vs, rest)) => Ok((VStruct(vs), rest))
      case Err(x) => Err(x)
  }

  /** int32 length, then that many raw bytes (read_string / share). */
  function DecodeBytes(s: seq<byte>): Decoded
  {
    if |s| < 4 then Err(OutOfRange)
    else
      var n := DecodeInt(s[..4], true);
      if n < 0 || |s| - 4 < n then Err(OutOfRange)
      else Ok((VBytes(s[4..4 + n]), s[4 + n..]))
  }

  /** `n` elements one after another, in order. */
  function DecodeN(e: Ty, n: nat, s: seq<byte>): Result<(seq<Value>, seq<byte>), DecodeError>
    decreases TySize(e), 2, n
  {
    if n == 0 then Ok(([], s))
    else match Decode(e, s)
      case Err(x) => Err(x)
      case Ok((v, rest)) =>
        match DecodeN(e, n - 1, rest)
        case Err(x) => Err(x)
        case Ok((vs, rest2)) => Ok(([v] + vs, rest2))
  }

  function DecodeFields(ts: seq<Ty>, s: seq<byte>): Result<(seq<Value>, seq<byte>), DecodeError>
    decreases TysSize(ts), 2
  {
    if ts == [] then Ok(([], s))
    else match Decode(ts[0], s)
      case Err(x) => Err(x)
      case Ok((v, rest)) =>
        match DecodeFields(ts[1..], rest)
        case Err(x) => Err(x)
        case Ok((vs, rest2)) => Ok(([v] + vs, rest2))
  }

  // ---------------------------------------------------------------------------
  // The round trip: reading an encoding gives the value back and leaves the
  // bytes after it untouched.

  lemma {:induction false} RoundTrip(t: Ty, v: Value, rest: seq<byte>)
    requires WellTyped(t, v) && Fits(t, v)
    ensures Decode(t, Encode(t, v) + rest) == Ok((v, rest))
    decreases TySize(t), 1
  {
    var s := Encode(t, v) + rest;
    match t
    case TInt(w, sg) =>
      assert s[..w] == Encode(t, v) && s[w..] == rest;
      IntRoundTrip(v.i, w, sg);
    case TEnum(w, sg) =>
      assert s[..w] == Encode(t, v) && s[w..] == rest;
      IntRoundTrip(v.i, w, sg);
    case TBool =>
      assert s[1..] == rest;
    case TString =>
      BytesRoundTrip(v.bytes, rest);
    case TIobuf =>
      BytesRoundTrip(v.bytes, rest);
    case TOptional(e) =>
      if v.VSome? {
        assert s[1..] == Encode(e, v.v) + rest;
        RoundTrip(e, v.v, rest);
      } else {
        assert s[1..] == rest;
      }
    case TVector(e) =>
      var n := |v.elems|;
      assert s[..4] == EncodeLength(n);
      assert s[4..] == EncodeAll(e, v.elems) + rest;
      LengthRoundTrip(n);
      RoundTripN(e, v.elems, rest);
    case TNamed(e) =>
      RoundTrip(e, v.inner, rest);
    case TStruct(ts) =>
      RoundTripFields(ts, v.fields, rest);
  }

  lemma BytesRoundTrip(b: seq<byte>, rest: seq<byte>)
    requires |b| < Int32Limit
    ensures DecodeBytes(EncodeLength(|b|) + b + rest) == Ok((VBytes(b), rest))
  {
    var s := EncodeLength(|b|) + b + rest;
    assert s[..4] == EncodeLength(|b|);
    LengthRoundTrip(|b|);
    assert s[4..4 + |b|] == b && s[4 + |b|..] == rest;
  }

  lemma {:induction false} RoundTripN(e: Ty, vs: seq<Value>, rest: seq<byte>)
    requires AllWellTyped(e, vs) && AllFit(e, vs)
    ensures DecodeN(e, |vs|, EncodeAll(e, vs) + rest) == Ok((vs, rest))
    decreases TySize(e), 2, |vs|
  {
    if vs != [] {
      var tail := EncodeAll(e, vs[1..]) + rest;
      assert WellTyped(e, vs[0]) && Fits(e, vs[0]);
      assert AllWellTyped(e, vs[1..]) && AllFit(e, vs[1..]) by {
        forall i | 0 <= i < |vs| - 1
          ensures WellTyped(e, vs[1..][i]) && Fits(e, vs[1..][i])
        {
          assert vs[1..][i] == vs[i + 1];
        }
      }
      var s := EncodeAll(e, vs) + rest;
      assert s == Encode(e, vs[0]) + tail;
      RoundTrip(e, vs[0], tail);
      RoundTripN(e, vs[1..], rest);
      assert Decode(e, s) == Ok((vs[0], tail));
      assert DecodeN(e, |vs| - 1, tail) == Ok((vs[1..], rest));
      assert [vs[0]] + vs[1..] == vs;
    } else {
      assert EncodeAll(e, vs) + rest == rest;
    }
  }

  lemma {:induction false} RoundTripFields(ts: seq<Ty>, vs: seq<Value>, rest: seq<byte>)
    requires FieldsWellTyped(ts, vs) && FieldsFit(ts, vs)
    ensures DecodeFields(ts, EncodeFields(ts, vs) + rest) == Ok((vs, rest))
    decreases TysSize(ts), 2
  {
    if ts != [] {
      var tail := EncodeFields(ts[1..], vs[1..]) + rest;
      var s := EncodeFields(ts, vs) + rest;
      assert s == Encode(ts[0], vs[0]) + tail;
      RoundTrip(ts[0], vs[0], tail);
      RoundTripFields(ts[1..], vs[1..], rest);
      assert Decode(ts[0], s) == Ok((vs[0], tail));
      assert DecodeFields(ts[1..], tail) == Ok((vs[1..], rest));
      assert [vs[0]] + vs[1..] == vs;
    } else {
      assert EncodeFields(ts, vs) + rest == rest;
    }
  }

  /** Whatever `from` returns is a value of the type it was asked for, and it
    * only ever consumes a prefix of its input. */
  lemma {:induction false} DecodeWellTyped(t: Ty, s: seq<byte>)
    requires Decode(t, s).Ok?
    ensures WellTyped(t, Decode(t, s).value.0)
    ensures |Decode(t, s).value.1| <= |s|
    ensures Decode(t, s).value.1 == s[|s| - |Decode(t, s).value.1|..]
    decreases TySize(t), 1
  {
    match t
    case TInt(_, _) => DecodeLeafWellTyped(t, s);
    case TEnum(_, _) => DecodeLeafWellTyped(t, s);
    case TBool => DecodeLeafWellTyped(t, s);
    case TString => DecodeLeafWellTyped(t, s);
    case TIobuf => DecodeLeafWellTyped(t, s);
    case TOptional(e) =>
      if s[0] != 0 {
        DecodeWellTyped(e, s[1..]);
        SuffixOfDrop(s, 1, Decode(e, s[1..]).value.1);
      } else {
        SuffixOfDrop(s, 1, s[1..]);
      }
    case TVector(e) =>
      var n := DecodeInt(s[..4], true);
      DecodeNWellTyped(e, n, s[4..]);
      SuffixOfDrop(s, 4, DecodeN(e, n, s[4..]).value.1);
    case TNamed(e) =>
      DecodeWellTyped(e, s);
    case TStruct(ts) =>
      DecodeFieldsWellTyped(ts, s);
  }

  /** DecodeWellTyped for the types with no element type. */
  lemma DecodeLeafWellTyped(t: Ty, s: seq<byte>)
    requires t.TInt? || t.TEnum? || t.TBool? || t.TString? || t.TIobuf?
    requires Decode(t, s).Ok?
    ensures WellTyped(t, Decode(t, s).value.0)
    ensures |Decode(t, s).value.1| <= |s|
    ensures Decode(t, s).value.1 == s[|s| - |Decode(t, s).value.1|..]
  {
    if t.TInt? || t.TEnum? {
      DecodeIntInRange(s[..t.width], t.signed);
      SuffixOfDrop(s, t.width, s[t.width..]);
    } else if t.TBool? {
      SuffixOfDrop(s, 1, s[1..]);
    } else {
      var n := DecodeInt(s[..4], true);
      SuffixOfDrop(s, 4 + n, s[4 + n..]);
    }
  }

  /** A suffix of what is left after dropping `k` bytes is a suffix of the
    * whole input. */
  lemma SuffixOfDrop(s: seq<byte>, k: nat, rest: seq<byte>)
    requires k <= |s|
    requires |rest| <= |s| - k && rest == s[k..][|s| - k - |rest|..]
    ensures |rest| <= |s| && rest == s[|s| - |rest|..]
  {
    assert s[k..][|s| - k - |rest|..] == s[|s| - |rest|..];
  }

  lemma {:induction false} DecodeNWellTyped(e: Ty, n: nat, s: seq<byte>)
    requires DecodeN(e, n, s).Ok?
    ensures AllWellTyped(e, DecodeN(e, n, s).value.0) && |DecodeN(e, n, s).value.0| == n
    ensures |DecodeN(e, n, s).value.1| <= |s|
    ensures DecodeN(e, n, s).value.1 == s[|s| - |DecodeN(e, n, s).value.1|..]
    decreases TySize(e), 2, n
  {
    if n > 0 {
      DecodeWellTyped(e, s);
      var rest := Decode(e, s).value.1;
      DecodeNWellTyped(e, n - 1, rest);
    }
  }

  lemma {:induction false} DecodeFieldsWellTyped(ts: seq<Ty>, s: seq<byte>)
    requires DecodeFields(ts, s).Ok?
    ensures FieldsWellTyped(ts, DecodeFields(ts, s).value.0)
    ensures |DecodeFields(ts, s).value.1| <= |s|
    ensures DecodeFields(ts, s).value.1 == s[|s| - |DecodeFields(ts, s).value.1|..]
    decreases TysSize(ts), 2
  {
    if ts != [] {
      DecodeWellTyped(ts[0], s);
      var rest := Decode(ts[0], s).value.1;
      DecodeFieldsWellTyped(ts[1..], rest);
      var vs := DecodeFields(ts, s).value.0;
      assert vs[1..] == DecodeFields(ts[1..], rest).value.0;
    }
  }

  /** An optional's tag byte: 0 reads as absent, any other value as present. */
  lemma OptionalTag(e: Ty, s: seq<byte>)
    requires |s| >= 1
    ensures s[0] == 0 ==> Decode(TOptional(e), s) == Ok((VNone, s[1..]))
    ensures s[0] != 0 && Decode(TOptional(e), s).Ok? ==> Decode(TOptional(e), s).value.0.VSome?
  {
  }

  /** A negative vector count is refused; a negative string length too. */
  lemma NegativeLengths(e: Ty, s: seq<byte>)
    requires |s| >= 4 && DecodeInt(s[..4], true) < 0
    ensures Decode(TVector(e), s) == Err(LengthError)
    ensures Decode(TString, s) == Err(OutOfRange)
  {
  }

  // ---------------------------------------------------------------------------
  // adl<std::vector<T>> for an element type T that has its own adl
  // specialization, given by that specialization's encoder and decoder.

  function EncodeEach<T>(enc: T --> seq<byte>, xs: seq<T>): seq<byte>
    requires forall i | 0 <= i < |xs| :: enc.requires(xs[i])
  {
    if xs == [] then [] else enc(xs[0]) + EncodeEach(enc, xs[1..])
  }

  function EncodeVectorWith<T>(enc: T --> seq<byte>, xs: seq<T>): seq<byte>
    requires forall i | 0 <= i < |xs| :: enc.requires(xs[i])
  {
    EncodeLength(|xs|) + EncodeEach(enc, xs)
  }

  function DecodeEach<T>(dec: seq<byte> -> Result<(T, seq<byte>), DecodeError>, n: nat, s: seq<byte>)
    : Result<(seq<T>, seq<byte>), DecodeError>
  {
    if n == 0 then Ok(([], s))
    else match dec(s)
      case Err(e) => Err(e)
      case Ok((x, r1)) =>
        match DecodeEach(dec, n - 1, r1)
        case Err(e) => Err(e)
        case Ok((xs, r2)) => Ok(([x] + xs, r2))
  }

  /** int32 count (a negative count is `reserve`'s length error), then that
    * many elements. */
  function DecodeVectorWith<T>(dec: seq<byte> -> Result<(T, seq<byte>), DecodeError>, s: seq<byte>)
    : Result<(seq<T>, seq<byte>), DecodeError>
  {
    if |s| < 4 then Err(OutOfRange)
    else
      var n := DecodeInt(s[..4], true);
      if n < 0 then Err(LengthError) else DecodeEach(dec, n, s[4..])
  }

  lemma {:induction false} EachRoundTrip<T>(enc: T --> seq<byte>, dec: seq<byte> -> Result<(T, seq<byte>), DecodeError>,
                                             xs: seq<T>, rest: seq<byte>)
    requires forall i | 0 <= i < |xs| :: enc.requires(xs[i])
    requires forall i, r | 0 <= i < |xs| :: dec(enc(xs[i]) + r) == Ok((xs[i], r))
    ensures DecodeEach(dec, |xs|, EncodeEach(enc, xs) + rest) == Ok((xs, rest))
    decreases |xs|
  {
    if xs != [] {
      var head, more := enc(xs[0]), EncodeEach(enc, xs[1..]);
      assert EncodeEach(enc, xs) == head + more;
      ConcatAssoc(head, more, rest);
      assert dec(head + (more + rest)) == Ok((xs[0], more + rest));
      forall i, r | 0 <= i < |xs[1..]| ensures dec(enc(xs[1..][i]) + r) == Ok((xs[1..][i], r)) {
        assert xs[1..][i] == xs[i + 1];
      }
      EachRoundTrip(enc, dec, xs[1..], rest);
      assert [xs[0]] + xs[1..] == xs;
    } else {
      assert EncodeEach(enc, xs) + rest == rest;
    }
  }

  /** When every element's own encoding reads back, so does the vector. */
  lemma VectorWithRoundTrip<T>(enc: T --> seq<byte>, dec: seq<byte> -> Result<(T, seq<byte>), DecodeError>,
                               xs: seq<T>, rest: seq<byte>)
    requires forall i | 0 <= i < |xs| :: enc.requires(xs[i])
    requires forall i, r | 0 <= i < |xs| :: dec(enc(xs[i]) + r) == Ok((xs[i], r))
    requires |xs| < Int32Limit
    ensures DecodeVectorWith(dec, EncodeVectorWith(enc, xs) + rest) == Ok((xs, rest))
  {
    var len, body := EncodeLength(|xs|), EncodeEach(enc, xs);
    ConcatAssoc(len, body, rest);
    var s := EncodeVectorWith(enc, xs) + rest;
    assert s[..4] == len && s[4..] == body + rest;
    LengthRoundTrip(|xs|);
    EachRoundTrip(enc, dec, xs, rest);
  }

  // ---------------------------------------------------------------------------
  // The imperative side: `to` appends into an iobuf, `from` advances a cursor.

  /** adl<T>::to(out, v): appends exactly the encoding of `v`. */
  method To(out: Iobuf, t: Ty, v: Value)
    requires out.Valid() && WellTyped(t, v)
    modifies out
    ensures out.Valid() && out.Contents() == old(out.Contents()) + Encode(t, v)
    decreases TySize(t), 1
  {
    match t
    case TInt(_, _) => ToLeaf(out, t, v);
    case TEnum(_, _) => ToLeaf(out, t, v);
    case TBool => ToLeaf(out, t, v);
    case TString => ToLeaf(out, t, v);
    case TIobuf => ToLeaf(out, t, v);
    case TOptional(e) =>
      if v.VSome? {
        out.AppendBytes([1]);
        To(out, e, v.v);
        assert out.Contents() == old(out.Contents()) + ([1] + Encode(e, v.v));
      } else {
        out.AppendBytes([0]);
      }
    case TVector(e) =>
      out.AppendBytes(EncodeLength(|v.elems|));
      ToEach(out, e, v.elems);
      assert out.Contents() == old(out.Contents()) + (EncodeLength(|v.elems|) + EncodeAll(e, v.elems));
    case TNamed(e) => To(out, e, v.inner);
    case TStruct(ts) => Serialize(out, ts, v.fields);
  }

  /** adl<T>::to for the types with no element type. */
  method ToLeaf(out: Iobuf, t: Ty, v: Value)
    requires t.TInt? || t.TEnum? || t.TBool? || t.TString? || t.TIobuf?
    requires out.Valid() && WellTyped(t, v)
    modifies out
    ensures out.Valid() && out.Contents() == old(out.Contents()) + Encode(t, v)
  {
    match t
    case TInt(w, s) => out.AppendBytes(EncodeInt(v.i, w, s));
    case TEnum(w, s) => out.AppendBytes(EncodeInt(v.i, w, s));
    case TBool => out.AppendBytes([if v.b then 1 else 0]);
    case TString =>
      out.AppendBytes(EncodeLength(|v.bytes|));
      out.AppendBytes(v.bytes);
      assert out.Contents() == old(out.Contents()) + (EncodeLength(|v.bytes|) + v.bytes);
    case TIobuf =>
      out.AppendBytes(EncodeLength(|v.bytes|));
      AppendMoved(out, v.bytes);
      assert out.Contents() == old(out.Contents()) + (EncodeLength(|v.bytes|) + v.bytes);
  }

  /** An iobuf payload is built as a separate buffer and moved onto the end
    * of `out`. */
  method AppendMoved(out: Iobuf, bytes: seq<byte>)
    requires out.Valid()
    modifies out
    ensures out.Valid() && out.Contents() == old(out.Contents()) + bytes
  {
    var moved := new Iobuf();
    moved.AppendBytes(bytes);
    out.AppendIobuf(moved);
  }

  /** The elements of a vector, each through adl<elem>::to, in order. */
  method ToEach(out: Iobuf, e: Ty, vs: seq<Value>)
    requires out.Valid() && AllWellTyped(e, vs)
    modifies out
    ensures out.Valid() && out.Contents() == old(out.Contents()) + EncodeAll(e, vs)
    decreases TySize(e), 2
  {
    ghost var start := out.Contents();
    var i := 0;
    while i < |vs|
      invariant 0 <= i <= |vs| && out.Valid()
      invariant out.Contents() == start + EncodeAll(e, vs[..i])
    {
      EncodeAllPrefix(e, vs, i);
      To(out, e, vs[i]);
      ConcatAssoc(start, EncodeAll(e, vs[..i]), Encode(e, vs[i]));
      i := i + 1;
    }
    assert vs[..i] == vs;
  }

  /** The encoding of one more element of a vector extends that of the
    * elements before it. */
  lemma EncodeAllPrefix(e: Ty, vs: seq<Value>, i: nat)
    requires AllWellTyped(e, vs) && i < |vs|
    ensures WellTyped(e, vs[i]) && AllWellTyped(e, vs[..i])
    ensures EncodeAll(e, vs[..i + 1]) == EncodeAll(e, vs[..i]) + Encode(e, vs[i])
  {
    assert WellTyped(e, vs[i]);
    EncodeAllSnoc(e, vs[..i], vs[i]);
    assert vs[..i + 1] == vs[..i] + [vs[i]];
  }

  /** serialize(out, a, b, ...): each argument's encoding, in argument order. */
  method Serialize(out: Iobuf, ts: seq<Ty>, vs: seq<Value>)
    requires out.Valid() && FieldsWellTyped(ts, vs)
    modifies out
    ensures out.Valid() && out.Contents() == old(out.Contents()) + EncodeFields(ts, vs)
    decreases TysSize(ts), 2
  {
    var i := 0;
    while i < |ts|
      invariant 0 <= i <= |ts| && out.Valid()
      invariant FieldsWellTyped(ts[..i], vs[..i])
      invariant out.Contents() == old(out.Contents()) + EncodeFields(ts[..i], vs[..i])
    {
      FieldsPrefix(ts, vs, i);
      EncodeFieldsSnoc(ts[..i], vs[..i], ts[i], vs[i]);
      assert ts[..i + 1] == ts[..i] + [ts[i]];
      assert vs[..i + 1] == vs[..i] + [vs[i]];
      FieldSize(ts, i);
      To(out, ts[i], vs[i]);
      i := i + 1;
    }
    assert ts[..i] == ts && vs[..i] == vs;
  }

  lemma {:induction false} FieldSize(ts: seq<Ty>, i: nat)
    requires i < |ts|
    ensures TySize(ts[i]) <= TysSize(ts)
  {
    if i > 0 {
      FieldSize(ts[1..], i - 1);
    }
  }

  /** to_iobuf(v): a fresh iobuf holding the encoding of `v`. */
  method ToIobuf(t: Ty, v: Value) returns (out: Iobuf)
    requires WellTyped(t, v)
    ensures fresh(out) && out.Valid() && out.Contents() == Encode(t, v)
  {
    out := new Iobuf();
    To(out, t, v);
  }

  /** adl<T>::from(parser): reads a value of type `t` from `s` at `pos`,
    * returning it with the position just after it. */
  method From(t: Ty, s: seq<byte>, pos: nat) returns (r: Result<(Value, nat), DecodeError>)
    requires pos <= |s|
    ensures r.Ok? ==> pos <= r.value.1 <= |s| && Decode(t, s[pos..]) == Ok((r.value.0, s[r.value.1..]))
    ensures r.Err? ==> Decode(t, s[pos..]) == Err(r.error)
    decreases TySize(t), 1
  {
    var rest := s[pos..];
    match t {
      case TInt(w, sg) =>
        if |rest| < w { return Err(OutOfRange); }
        assert s[pos + w..] == rest[w..];
        return Ok((VInt(DecodeInt(rest[..w], sg)), pos + w));
      case TEnum(w, sg) =>
        if |rest| < w { return Err(OutOfRange); }
        assert s[pos + w..] == rest[w..];
        return Ok((VInt(DecodeInt(rest[..w], sg)), pos + w));
      case TBool =>
        if |rest| < 1 { return Err(OutOfRange); }
        assert s[pos + 1..] == rest[1..];
        return Ok((VBool(rest[0] != 0), pos + 1));
      case TString => r := FromBytes(s, pos);
      case TIobuf => r := FromBytes(s, pos);
      case TOptional(e) =>
        if |rest| < 1 { return Err(OutOfRange); }
        if rest[0] == 0 {
          assert s[pos + 1..] == rest[1..];
          return Ok((VNone, pos + 1));
        }
        assert s[pos + 1..] == rest[1..];
        var inner := From(e, s, pos + 1);
        if inner.Err? { return Err(inner.error); }
        return Ok((VSome(inner.value.0), inner.value.1));
      case TVector(e) =>
        if |rest| < 4 { return Err(OutOfRange); }
        var n := DecodeInt(rest[..4], true);
        if n < 0 { return Err(LengthError); }
        assert s[pos + 4..] == rest[4..];
        var elems := FromEach(e, s, pos + 4, n);
        if elems.Err? { return Err(elems.error); }
        return Ok((VVector(elems.value.0), elems.value.1));
      case TNamed(e) =>
        var inner := From(e, s, pos);
        if inner.Err? { return Err(inner.error); }
        return Ok((VNamed(inner.value.0), inner.value.1));
      case TStruct(ts) =>
        var fs := FromFields(ts, s, pos);
        if fs.Err? { return Err(fs.error); }
        return Ok((VStruct(fs.value.0), fs.value.1));
    }
  }

  /** The elements of a vector, each through adl<elem>::from, in order. */
  method FromEach(e: Ty, s: seq<byte>, pos: nat, n: nat) returns (r: Result<(seq<Value>, nat), DecodeError>)
    requires pos <= |s|
    ensures r.Ok? ==> pos <= r.value.1 <= |s| && DecodeN(e, n, s[pos..]) == Ok((r.value.0, s[r.value.1..]))
    ensures r.Err? ==> DecodeN(e, n, s[pos..]) == Err(r.error)
    decreases TySize(e), 2
  {
    var elems: seq<Value> := [];
    var at := pos;
    var left: nat := n;
    PrefixedEmpty(DecodeN(e, n, s[at..]));
    while left > 0
      invariant pos <= at <= |s|
      invariant DecodeN(e, n, s[pos..]) == Prefixed(elems, DecodeN(e, left, s[at..]))
      decreases left
    {
      var x := From(e, s, at);
      if x.Err? {
        return Err(x.error);
      }
      PrefixedStep(elems, x.value.0, DecodeN(e, left - 1, s[x.value.1..]));
      elems := elems + [x.value.0];
      at := x.value.1;
      left := left - 1;
    }
    PrefixedDone(elems, s[at..]);
    return Ok((elems, at));
  }

  /** The values read so far in front of the rest of a multi-value read. */
  function Prefixed(vs: seq<Value>, r: Result<(seq<Value>, seq<byte>), DecodeError>): Result<(seq<Value>, seq<byte>), DecodeError>
  {
    match r
    case Ok((ws, rest)) => Ok((vs + ws, rest))
    case Err(x) => Err(x)
  }

  lemma PrefixedStep(vs: seq<Value>, x: Value, r: Result<(seq<Value>, seq<byte>), DecodeError>)
    ensures Prefixed(vs, Prefixed([x], r)) == Prefixed(vs + [x], r)
  {
    if r.Ok? {
      assert vs + ([x] + r.value.0) == (vs + [x]) + r.value.0;
    }
  }

  lemma PrefixedEmpty(r: Result<(seq<Value>, seq<byte>), DecodeError>)
    ensures Prefixed([], r) == r
  {
    if r.Ok? {
      assert [] + r.value.0 == r.value.0;
    }
  }

  lemma PrefixedDone(vs: seq<Value>, rest: seq<byte>)
    ensures Prefixed(vs, Ok(([], rest))) == Ok((vs, rest))
  {
    assert vs + [] == vs;
  }

  method FromBytes(s: seq<byte>, pos: nat) returns (r: Result<(Value, nat), DecodeError>)
    requires pos <= |s|
    ensures r.Ok? ==> pos <= r.value.1 <= |s| && DecodeBytes(s[pos..]) == Ok((r.value.0, s[r.value.1..]))
    ensures r.Err? ==> DecodeBytes(s[pos..]) == Err(r.error)
  {
    var rest := s[pos..];
    if |rest| < 4 { return Err(OutOfRange); }
    var n := DecodeInt(rest[..4], true);
    if n < 0 || |rest| - 4 < n { return Err(OutOfRange); }
    assert s[pos + 4 + n..] == rest[4 + n..];
    return Ok((VBytes(rest[4..4 + n]), pos + 4 + n));
  }

  /** Field by field, in declaration order. */
  method FromFields(ts: seq<Ty>, s: seq<byte>, pos: nat) returns (r: Result<(seq<Value>, nat), DecodeError>)
    requires pos <= |s|
    ensures r.Ok? ==> pos <= r.value.1 <= |s| && DecodeFields(ts, s[pos..]) == Ok((r.value.0, s[r.value.1..]))
    ensures r.Err? ==> DecodeFields(ts, s[pos..]) == Err(r.error)
    decreases TysSize(ts), 2
  {
    var vs: seq<Value> := [];
    var at := pos;
    var i := 0;
    assert ts[0..] == ts;
    PrefixedEmpty(DecodeFields(ts, s[pos..]));
    while i < |ts|
      invariant 0 <= i <= |ts| && pos <= at <= |s|
      invariant DecodeFields(ts, s[pos..]) == Prefixed(vs, DecodeFields(ts[i..], s[at..]))
    {
      FieldSize(ts, i);
      assert ts[i..][0] == ts[i] && ts[i..][1..] == ts[i + 1..];
      TysSizeSuffix(ts, i);
      var x := From(ts[i], s, at);
      if x.Err? {
        return Err(x.error);
      }
      PrefixedStep(vs, x.value.0, DecodeFields(ts[i + 1..], s[x.value.1..]));
      vs := vs + [x.value.0];
      at := x.value.1;
      i := i + 1;
    }
    assert ts[i..] == [];
    PrefixedDone(vs, s[at..]);
    return Ok((vs, at));
  }

  lemma {:induction false} TysSizeSuffix(ts: seq<Ty>, i: nat)
    requires i <= |ts|
    ensures TysSize(ts[i..]) <= TysSize(ts)
  {
    if i > 0 {
      TysSizeSuffix(ts[1..], i - 1);
      assert ts[1..][i - 1..] == ts[i..];
    }
  }

  /** from_iobuf<T>(b): decodes from the start of the buffer's bytes. */
  method FromIobuf(t: Ty, b: Iobuf) returns (r: Result<Value, DecodeError>)
    requires b.Valid()
    ensures r.Ok? <==> Decode(t, b.Contents()).Ok?
    ensures r.Ok? ==> r.value == Decode(t, b.Contents()).value.0
    ensures r.Err? ==> r.error == Decode(t, b.Contents()).error
  {
    var bytes := b.Contents();
    var x := From(t, bytes, 0);
    assert bytes[0..] == bytes;
    if x.Err? { return Err(x.error); }
    return Ok(x.value.0);
  }

  /** What to_iobuf writes, from_iobuf reads back. */
  lemma ToFromIobuf(t: Ty, v: Value)
    requires WellTyped(t, v) && Fits(t, v)
    ensures Decode(t, Encode(t, v)) == Ok((v, []))
  {
    RoundTrip(t, v, []);
    assert Encode(t, v) + [] == Encode(t, v);
  }
}
