/**
 * The C layout of a virTypedParameter byte by byte: an 80-byte field, the tag in bytes 80 to 83
 * and an 8-byte union in bytes 88 to 95 of 96, little-endian. The codec reads and writes exactly this.
 */
module CLayout {
  import opened Bytes
  import opened CHeap
  import opened TypedParams
  import opened ParamArrays

  // ----- Little-endian numbers -----

  /** Byte i of a number is its digit i to the base 256. */
  lemma {:induction false} LEDigits(v: nat, n: nat, i: nat)
    requires i < n
    ensures LE(v, n)[i] as int == v / Pow256(i) % 256
  {
    if i == 0 {
      assert v / 1 == v;
    } else {
      LEDigits(v / 256, n - 1, i - 1);
      DivDiv(v, 256, Pow256(i - 1));
    }
  }

  lemma DivDiv(v: nat, a: nat, b: nat)
    requires a > 0 && b > 0
    ensures a * b > 0 && v / a / b == v / (a * b)
  {
    var q, r := v / a, v % a;
    var t, u := q / b, q % b;
    MulLe(a, u + 1, b);
    assert a * (u + 1) == a * u + a;
    Regroup(v, a, b, q, r, t, u);
    DivUnique(v, a * b, t, a * u + r);
  }

  lemma Regroup(v: int, a: int, b: int, q: int, r: int, t: int, u: int)
    requires v == a * q + r && q == b * t + u
    ensures v == a * b * t + (a * u + r)
  {
    assert a * q == a * (b * t) + a * u;
    assert a * (b * t) == a * b * t;
  }

  lemma MulLe(a: nat, x: int, y: int)
    requires x <= y
    ensures a * x <= a * y
  {
  }

  lemma DivUnique(v: int, a: nat, q: int, r: nat)
    requires a > 0 && v == a * q + r && r < a
    ensures v / a == q
  {
    if v / a > q {
      MulLe(a, q + 1, v / a);
      assert false;
    } else if v / a < q {
      MulLe(a, v / a + 1, q);
      assert false;
    }
  }

  /** Reading and writing undo each other, so FromLE is fixed by LE. */
  lemma {:induction false} LEOfFromLE(b: Bytes)
    ensures LE(FromLE(b), |b|) == b
  {
    if b == [] {
    } else {
      LEOfFromLE(b[1..]);
      assert FromLE(b) % 256 == b[0] as int && FromLE(b) / 256 == FromLE(b[1..]);
    }
  }

  // ----- A record -----

  /** libvirt's number for the type of a value. */
  function Tag(value: Value): int {
    match value
    case Int32(_) => 1
    case UInt32(_) => 2
    case Int64(_) => 3
    case UInt64(_) => 4
    case Float64(_) => 5
    case Bool(_) => 6
    case String(_) => 7
    case _ => 0
  }

  /** The bits of an n-bit number, negative ones in two's complement. */
  function Bits(v: int, modulus: int): int {
    if v < 0 then v + modulus else v
  }

  predicate IsString(h: Blocks, p: Addr, s: Bytes) {
    p != 0 && p in h && s + [NUL] <= h[p]
  }

  /** The record as libvirt has it for q. */
  predicate CRecord(h: Blocks, rec: Bytes, q: TypedParameter)
    requires |rec| == 96
  {
    && q.field + [NUL] <= rec[0..80]
    && FromLE(rec[80..84]) == Tag(q.value)
    && match q.value
       case Int32(v) => FromLE(rec[88..92]) == Bits(v, 0x1_0000_0000)
       case UInt32(v) => FromLE(rec[88..92]) == v
       case Int64(v) => FromLE(rec[88..96]) == Bits(v, 0x1_0000_0000_0000_0000)
       case UInt64(v) => FromLE(rec[88..96]) == v
       case Float64(v) => FromLE(rec[88..96]) == v
       case Bool(t) => t <==> rec[88] != NUL
       case String(s) => IsString(h, AddressIn(rec), s)
       case _ => false
  }

  function AddressIn(rec: Bytes): Addr
    requires |rec| == 96
  {
    FromLEBound(rec[88..96]);
    Widths();
    FromLE(rec[88..96])
  }

  /** Where the codec reads. */
  lemma CellLayout(rec: Bytes)
    requires |rec| == 96
    ensures var c := ReadCell(rec);
      && c.field == rec[0..80][..IndexNul(rec[0..80])]
      && c.typ == Signed(FromLE(rec[80..84]), 0x1_0000_0000)
      && c.word == FromLE(rec[88..92]) && c.long == FromLE(rec[88..96]) && (c.flag <==> rec[88] != NUL)
  {
  }

  /** A cell encodes a parameter exactly when its bytes are those of libvirt's record. */
  lemma EncodesExact(h: Blocks, rec: Bytes, q: TypedParameter)
    requires |rec| == 96 && Canonical(q)
    ensures Encodes(h, ReadCell(rec), q) <==> CRecord(h, rec, q)
  {
    CellLayout(rec);
    FieldExact(rec[0..80], q.field);
    FromLEBound(rec[80..84]);
    Widths();
    hide ReadCell, FromLE, IndexNul;
  }

  lemma FieldExact(b: Bytes, field: Bytes)
    requires |b| == 80 && ValidField(field)
    ensures b[..IndexNul(b)] == field <==> field + [NUL] <= b
  {
    var n, k := IndexNul(b), |field|;
    if field + [NUL] <= b {
      assert b[k] == (field + [NUL])[k] == NUL;
      forall i | 0 <= i < k ensures b[i] != NUL {
        assert b[i] == (field + [NUL])[i] == field[i] && field[i] in field;
      }
      assert n == k;
      assert b[..k] == (field + [NUL])[..k] == field;
    }
    if b[..n] == field {
      assert n < |b| && b[n] == NUL;
      assert b[..n + 1] == field + [NUL];
    }
  }

  /** The fields that are accepted are exactly those that a record's 80 bytes can carry. */
  lemma ValidFieldExact(field: Bytes)
    ensures ValidField(field) <==> field != [] && exists b: Bytes :: |b| == 80 && NUL in b && b[..IndexNul(b)] == field
  {
    if ValidField(field) {
      var b := field + Zeros(80 - |field|);
      assert field + [NUL] <= b && b[|field|] == NUL;
      FieldExact(b, field);
    } else if b: Bytes :| |b| == 80 && NUL in b && b[..IndexNul(b)] == field {
      var k :| 0 <= k < |b| && b[k] == NUL;
      assert IndexNul(b) <= k;
      assert field == [];
    }
  }

  // ----- The marshaller's record, to the last byte -----

  /** The union of a built record as one number: true is 1, and what is narrower is filled up with zeros. */
  function UnionBits(q: TypedParameter, text: Addr): int {
    match q.value
    case Int32(v) => Bits(v, 0x1_0000_0000)
    case UInt32(v) => v
    case Int64(v) => Bits(v, 0x1_0000_0000_0000_0000)
    case UInt64(v) => v
    case Float64(v) => v
    case Bool(t) => if t then 1 else 0
    case String(_) => text
    case _ => 0
  }

  /** Every byte of a built record is determined: the field, zeros, the tag, zeros and the union. */
  lemma BuildExact(q: TypedParameter, text: Addr)
    requires Canonical(q)
    ensures var rec := AfterValue(q, text);
      && rec[0..80] == q.field + Zeros(80 - |q.field|)
      && rec[80..88] == [Tag(q.value) as char] + Zeros(7)
      && FromLE(rec[88..96]) == UnionBits(q, text)
  {
    UnionExact(q, text);
    ByteOf(Tag(q.value));
    Joined(q, TypeBytes(q.typ), ValueBytes(q.value, text), AfterValue(q, text));
    assert TypeBytes(q.typ) == LE(Tag(q.value), 4);
    hide *;
    assert [Tag(q.value) as char] + Zeros(3) + Zeros(4) == [Tag(q.value) as char] + Zeros(7);
  }

  /** The three stores side by side. */
  lemma Joined(q: TypedParameter, tag: Bytes, vb: Bytes, rec: Bytes)
    requires Canonical(q) && |vb| <= 8 && tag == TypeBytes(q.typ) && rec == Splice(AfterType(q), VALUE_OFFSET, vb)
    ensures rec[0..80] == q.field + Zeros(80 - |q.field|)
    ensures rec[80..88] == tag + Zeros(4)
    ensures rec[88..96] == vb + Zeros(8 - |vb|)
  {
    assert |q.field| < 80;
    hide TypeBytes, Canonical;
    var start := q.field + Zeros(80 - |q.field|);
    assert AfterField(q) == q.field + Zeros(96 - |q.field|);
    assert AfterType(q) == start + tag + Zeros(12);
    assert rec == start + tag + Zeros(4) + vb + Zeros(8 - |vb|);
  }

  lemma ByteOf(n: nat)
    requires n < 256
    ensures LE(n, 4) == [n as char] + Zeros(3)
  {
    assert LE(n, 4)[1..] == LE(0, 3);
  }

  lemma UnionExact(q: TypedParameter, text: Addr)
    requires Canonical(q)
    ensures var vb := ValueBytes(q.value, text);
      FromLE(vb + Zeros(8 - |vb|)) == UnionBits(q, text)
  {
    var vb := ValueBytes(q.value, text);
    Padded(vb, 8 - |vb|);
    Widths();
    match q.value
    case Int32(v) => FromLEOfLE(Unsigned(v, 0x1_0000_0000), 4);
    case UInt32(v) => FromLEOfLE(v, 4);
    case Int64(v) => FromLEOfLE(Unsigned(v, 0x1_0000_0000_0000_0000), 8);
    case UInt64(v) => FromLEOfLE(v, 8);
    case Float64(v) => FromLEOfLE(v, 8);
    case Bool(t) =>
    case String(_) => FromLEOfLE(text, 8);
  }

  lemma {:induction false} Padded(b: Bytes, n: nat)
    ensures FromLE(b + Zeros(n)) == FromLE(b)
  {
    if b == [] {
      assert b + Zeros(n) == Zeros(n);
      ZerosBits(n);
    } else {
      assert (b + Zeros(n))[1..] == b[1..] + Zeros(n);
      Padded(b[1..], n);
    }
  }

  // ----- Decoding -----

  /** What the record says, whatever it is: q is its reading. */
  predicate CReads(h: Blocks, rec: Bytes, q: TypedParameter)
    requires |rec| == 96
  {
    && q.field == rec[0..80][..IndexNul(rec[0..80])]
    && q.typ == Tag(q.value) && FromLE(rec[80..84]) == Tag(q.value)
    && match q.value
       case Int32(v) => FromLE(rec[88..92]) == Bits(v, 0x1_0000_0000)
       case UInt32(v) => FromLE(rec[88..92]) == v
       case Int64(v) => FromLE(rec[88..96]) == Bits(v, 0x1_0000_0000_0000_0000)
       case UInt64(v) => FromLE(rec[88..96]) == v
       case Float64(v) => FromLE(rec[88..96]) == v
       case Bool(t) => t <==> rec[88] != NUL
       case String(s) =>
         if AddressIn(rec) == 0 then s == [] else NUL !in s && IsString(h, AddressIn(rec), s)
       case _ => false
  }

  /** A record decodes exactly to its reading, and fails exactly when its tag is none of 1 to 7. */
  lemma DecodesExact(h: Blocks, rec: Bytes, q: TypedParameter)
    requires |rec| == 96 && Readable(h, ReadCell(rec))
    ensures Decode(h, ReadCell(rec)) == Ok(q) <==> CReads(h, rec, q)
    ensures Decode(h, ReadCell(rec)).Err? <==> !(1 <= FromLE(rec[80..84]) <= 7)
  {
    CellLayout(rec);
    FromLEBound(rec[80..84]);
    FromLEBound(rec[88..92]);
    FromLEBound(rec[88..96]);
    Widths();
    if q.value.String? && ReadCell(rec).typ == TYPE_STRING && AddressIn(rec) != 0 {
      StringExact(h[AddressIn(rec)], q.value.text);
    }
    hide ReadCell, FromLE, IndexNul;
  }

  lemma StringExact(b: Bytes, s: Bytes)
    requires NUL in b
    ensures b[..IndexNul(b)] == s <==> NUL !in s && s + [NUL] <= b
  {
    var n, k := IndexNul(b), |s|;
    var z :| 0 <= z < |b| && b[z] == NUL;
    assert n <= z;
    if NUL !in s && s + [NUL] <= b {
      assert b[k] == (s + [NUL])[k] == NUL;
      forall i | 0 <= i < k ensures b[i] != NUL {
        assert b[i] == (s + [NUL])[i] == s[i] && s[i] in s;
      }
      assert n == k;
      assert b[..k] == (s + [NUL])[..k] == s;
    }
    if b[..n] == s {
      assert b[..n + 1] == s + [NUL];
      forall i | 0 <= i < n ensures s[i] != NUL {
        assert s[i] == b[i];
      }
    }
  }

  // ----- An array -----

  /** The array as libvirt has it for qs, record i at byte 96 i. */
  ghost predicate CArray(h: Blocks, memory: Addr, qs: seq<TypedParameter>) {
    qs != [] ==>
      && memory in h && 96 * |qs| <= |h[memory]|
      && forall i | 0 <= i < |qs| :: CRecord(h, h[memory][96 * i..96 * i + 96], qs[i])
  }

  lemma ArrayLayout(h: Blocks, memory: Addr, qs: seq<TypedParameter>)
    requires memory in h && RECORD_SIZE * |qs| <= |h[memory]| && AllEncode(h, Cells(h[memory], |qs|), qs)
    ensures CArray(h, memory, qs)
  {
    hide CRecord, AllEncode;
    forall i | 0 <= i < |qs| ensures CRecord(h, h[memory][96 * i..96 * i + 96], qs[i]) {
      RecordLayout(h, h[memory], qs, i);
    }
  }

  lemma RecordLayout(h: Blocks, params: Bytes, qs: seq<TypedParameter>, i: nat)
    requires i < |qs| && RECORD_SIZE * |qs| <= |params| && AllEncode(h, Cells(params, |qs|), qs)
    ensures 96 * i + 96 <= |params| && CRecord(h, params[96 * i..96 * i + 96], qs[i])
  {
    hide CRecord, ReadCell, Encodes, Canonical;
    CellsAt(params, |qs|, i);
    EncodesExact(h, RecordAt(params, i), qs[i]);
  }
}
