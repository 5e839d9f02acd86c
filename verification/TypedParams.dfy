/** Typed parameters: their Go form, their canonical form and the 96-byte C record. */
module TypedParams {
  import opened Bytes
  import opened CHeap

  const FIELD_LENGTH := 80
  const TYPE_OFFSET := 80
  const VALUE_OFFSET := 88
  const RECORD_SIZE := 96

  const TYPE_INT: i32 := 1
  const TYPE_UINT: i32 := 2
  const TYPE_LLONG: i32 := 3
  const TYPE_ULLONG: i32 := 4
  const TYPE_DOUBLE: i32 := 5
  const TYPE_BOOLEAN: i32 := 6
  const TYPE_STRING: i32 := 7

  // The dynamic types a Go caller can put in TypedParameter.Value. Int and
  // UInt are the platform's 64-bit int and uint; a float64 is its 64 bits;
  // Other stands for every further dynamic type, nil included.
  datatype Value =
    | Int(platformInt: i64)
    | Int32(int32: i32)
    | UInt(platformUint: u64)
    | UInt32(uint32: u32)
    | Int64(int64: i64)
    | UInt64(uint64: u64)
    | Float64(bits: u64)
    | Bool(truth: bool)
    | String(text: Bytes)
    | Other

  datatype TypedParameter = TypedParameter(field: Bytes, typ: i32, value: Value)

  datatype Error =
    | InvalidField
    | WrongValue
    | Overflow
    | UnsupportedType
    | UnknownType(typ: i32)
    | NegativeCount
    | TooMany
    | CountChanged
    | Allocation
    | Native
    | SymbolUnavailable
    | RecordCount
    | InvalidRecord
    | Closed

  datatype Result<+T> = Ok(value: T) | Err(error: Error)

  predicate ValidField(field: Bytes) {
    field != [] && |field| < FIELD_LENGTH && NUL !in field
  }

  /** The tag inferred for an untagged parameter; an unmatched value stays untagged. */
  function InferType(value: Value): i32 {
    match value
    case Int(_) => TYPE_INT
    case Int32(_) => TYPE_INT
    case UInt(_) => TYPE_UINT
    case UInt32(_) => TYPE_UINT
    case Int64(_) => TYPE_LLONG
    case UInt64(_) => TYPE_ULLONG
    case Float64(_) => TYPE_DOUBLE
    case Bool(_) => TYPE_BOOLEAN
    case String(_) => TYPE_STRING
    case Other => 0
  }

  function Normalize(param: TypedParameter): Result<TypedParameter> {
    if !ValidField(param.field) then Err(InvalidField)
    else
      var p := if param.typ == 0 then param.(typ := InferType(param.value)) else param;
      if p.typ == TYPE_INT then
        match p.value
        case Int(v) =>
          if v < -0x8000_0000 || v > 0x7fff_ffff then Err(Overflow) else Ok(p.(value := Int32(v)))
        case Int32(v) => Ok(p)
        case _ => Err(WrongValue)
      else if p.typ == TYPE_UINT then
        match p.value
        case UInt(v) => if v > 0xffff_ffff then Err(Overflow) else Ok(p.(value := UInt32(v)))
        case UInt32(v) => Ok(p)
        case _ => Err(WrongValue)
      else if p.typ == TYPE_LLONG then
        if p.value.Int64? then Ok(p) else Err(WrongValue)
      else if p.typ == TYPE_ULLONG then
        if p.value.UInt64? then Ok(p) else Err(WrongValue)
      else if p.typ == TYPE_DOUBLE then
        if p.value.Float64? then Ok(p) else Err(WrongValue)
      else if p.typ == TYPE_BOOLEAN then
        if p.value.Bool? then Ok(p) else Err(WrongValue)
      else if p.typ == TYPE_STRING then
        if p.value.String? && NUL !in p.value.text then Ok(p) else Err(WrongValue)
      else Err(UnsupportedType)
  }

  // ----- What normalization means -----

  /** A parameter whose value has exactly the dynamic type its tag names. */
  predicate Canonical(q: TypedParameter) {
    && ValidField(q.field)
    && match q.value
       case Int32(_) => q.typ == TYPE_INT
       case UInt32(_) => q.typ == TYPE_UINT
       case Int64(_) => q.typ == TYPE_LLONG
       case UInt64(_) => q.typ == TYPE_ULLONG
       case Float64(_) => q.typ == TYPE_DOUBLE
       case Bool(_) => q.typ == TYPE_BOOLEAN
       case String(s) => q.typ == TYPE_STRING && NUL !in s
       case _ => false
  }

  /** c is v, or the fixed-width integer equal to the platform integer v. */
  predicate Denotes(v: Value, c: Value) {
    match v
    case Int(n) => c.Int32? && c.int32 == n
    case UInt(n) => c.UInt32? && c.uint32 == n
    case _ => c == v
  }

  /** Normalize succeeds with q exactly when q is canonical and denotes the parameter. */
  lemma NormalizeExact(p: TypedParameter, q: TypedParameter)
    ensures Normalize(p) == Ok(q)
       <==> Canonical(q) && q.field == p.field && (p.typ == 0 || p.typ == q.typ) && Denotes(p.value, q.value)
  {
    match p.value {
      case Int(_) =>
      case UInt(_) =>
      case _ =>
    }
  }

  /** Hence normalization is idempotent: its results are its fixpoints. */
  lemma NormalizeIdempotent(p: TypedParameter)
    ensures Normalize(p).Ok? ==> Canonical(Normalize(p).value) && Normalize(Normalize(p).value) == Normalize(p)
  {
    if Normalize(p).Ok? {
      NormalizeExact(p, Normalize(p).value);
      NormalizeExact(Normalize(p).value, Normalize(p).value);
    }
  }

  // ----- The record layout -----

  // A virTypedParameter as C reads it: the field up to its first NUL, the tag, and
  // the value union read as 32 bits, as 64 bits or pointer, and as a boolean byte.
  datatype Cell = Cell(field: Bytes, typ: i32, word: u32, long: u64, flag: bool)

  function RecordAt(params: Bytes, i: nat): (rec: Bytes)
    requires RECORD_SIZE * (i + 1) <= |params|
    ensures |rec| == RECORD_SIZE
  {
    params[RECORD_SIZE * i..RECORD_SIZE * i + RECORD_SIZE]
  }

  function ReadCell(rec: Bytes): Cell
    requires |rec| == RECORD_SIZE
  {
    Widths();
    FromLEBound(rec[TYPE_OFFSET..TYPE_OFFSET + 4]);
    FromLEBound(rec[VALUE_OFFSET..VALUE_OFFSET + 4]);
    FromLEBound(rec[VALUE_OFFSET..VALUE_OFFSET + 8]);
    Cell(
      rec[..FIELD_LENGTH][..IndexNul(rec[..FIELD_LENGTH])],
      Signed(FromLE(rec[TYPE_OFFSET..TYPE_OFFSET + 4]), 0x1_0000_0000),
      FromLE(rec[VALUE_OFFSET..VALUE_OFFSET + 4]),
      FromLE(rec[VALUE_OFFSET..VALUE_OFFSET + 8]),
      rec[VALUE_OFFSET] != NUL)
  }

  // ----- Decoding -----

  predicate Terminated(h: Blocks, p: Addr) {
    p in h && NUL in h[p]
  }

  /** The string block a cell points to, if any. */
  predicate OwnsString(c: Cell) {
    c.typ == TYPE_STRING && c.long != NULL
  }

  /** What libvirt promises of a cell: a string it points to is live and terminated. */
  predicate Readable(h: Blocks, c: Cell) {
    OwnsString(c) ==> Terminated(h, c.long)
  }

  /** The string copyCString reads at p. */
  function CString(h: Blocks, p: Addr): Bytes
    requires p != NULL ==> Terminated(h, p)
  {
    if p == NULL then [] else h[p][..IndexNul(h[p])]
  }

  function Decode(h: Blocks, c: Cell): Result<TypedParameter>
    requires Readable(h, c)
  {
    if c.typ == TYPE_INT then Ok(TypedParameter(c.field, c.typ, Int32(Signed(c.word, 0x1_0000_0000))))
    else if c.typ == TYPE_UINT then Ok(TypedParameter(c.field, c.typ, UInt32(c.word)))
    else if c.typ == TYPE_LLONG then
      Ok(TypedParameter(c.field, c.typ, Int64(Signed(c.long, 0x1_0000_0000_0000_0000))))
    else if c.typ == TYPE_ULLONG then Ok(TypedParameter(c.field, c.typ, UInt64(c.long)))
    else if c.typ == TYPE_DOUBLE then Ok(TypedParameter(c.field, c.typ, Float64(c.long)))
    else if c.typ == TYPE_BOOLEAN then Ok(TypedParameter(c.field, c.typ, Bool(c.flag)))
    else if c.typ == TYPE_STRING then Ok(TypedParameter(c.field, c.typ, String(CString(h, c.long))))
    else Err(UnknownType(c.typ))
  }

  /** Records with a non-empty NUL-terminated field decode to fixpoints of Normalize. */
  lemma DecodedIsCanonical(h: Blocks, rec: Bytes)
    requires |rec| == RECORD_SIZE && Readable(h, ReadCell(rec))
    requires rec[0] != NUL && NUL in rec[..FIELD_LENGTH]
    requires Decode(h, ReadCell(rec)).Ok?
    ensures Canonical(Decode(h, ReadCell(rec)).value)
    ensures Normalize(Decode(h, ReadCell(rec)).value) == Decode(h, ReadCell(rec))
  {
    var q := Decode(h, ReadCell(rec)).value;
    var field := rec[..FIELD_LENGTH];
    var k :| 0 <= k < |field| && field[k] == NUL;
    assert IndexNul(field) <= k;
    assert field[0] == rec[0];
    NormalizeExact(q, q);
  }

  // ----- The abstract encoding both marshallers produce -----

  /** c is a C parameter for the canonical q; the parts of the union its type leaves unused are arbitrary. */
  predicate Encodes(h: Blocks, c: Cell, q: TypedParameter) {
    && c.field == q.field && c.typ == q.typ
    && match q.value
       case Int32(v) => c.word == Unsigned(v, 0x1_0000_0000)
       case UInt32(v) => c.word == v
       case Int64(v) => c.long == Unsigned(v, 0x1_0000_0000_0000_0000)
       case UInt64(v) => c.long == v
       case Float64(v) => c.long == v
       case Bool(v) => c.flag == v
       case String(s) => c.long != NULL && c.long in h && s + [NUL] <= h[c.long]
       case _ => false
  }

  lemma EncodesDecodes(h: Blocks, c: Cell, q: TypedParameter)
    requires Canonical(q) && Encodes(h, c, q)
    ensures Readable(h, c) && Decode(h, c) == Ok(q)
    ensures OwnsString(c) <==> q.value.String?
  {
    if q.value.String? {
      var s := q.value.text;
      assert (s + [NUL])[|s|] == NUL;
      assert h[c.long][..|s|] == s;
    }
  }

  /** An encoding survives whatever leaves its string alone. */
  lemma EncodesFrame(h: Blocks, h': Blocks, c: Cell, q: TypedParameter)
    requires Canonical(q) && Encodes(h, c, q)
    requires OwnsString(c) ==> c.long in h && c.long in h' && h'[c.long] == h[c.long]
    ensures Encodes(h', c, q)
  {
  }

  // ----- Building a record -----

  /** The bytes the marshaller stores at the start of the union; text is where a string was put. */
  function ValueBytes(value: Value, text: Addr): (b: Bytes)
    ensures |b| <= 8
  {
    match value
    case Int32(v) => LE(Unsigned(v, 0x1_0000_0000), 4)
    case UInt32(v) => LE(v, 4)
    case Int64(v) => LE(Unsigned(v, 0x1_0000_0000_0000_0000), 8)
    case UInt64(v) => LE(v, 8)
    case Float64(v) => LE(v, 8)
    case Bool(v) => if v then [1 as char] else []
    case String(_) => LE(text, 8)
    case _ => []
  }

  function TypeBytes(typ: i32): (b: Bytes)
    ensures |b| == 4
  {
    LE(Unsigned(typ, 0x1_0000_0000), 4)
  }

  /** The record after each of the marshaller's three stores. */
  function AfterField(q: TypedParameter): (rec: Bytes)
    requires Canonical(q)
    ensures |rec| == RECORD_SIZE
  {
    Splice(Zeros(RECORD_SIZE), 0, q.field)
  }

  function AfterType(q: TypedParameter): (rec: Bytes)
    requires Canonical(q)
    ensures |rec| == RECORD_SIZE
  {
    Splice(AfterField(q), TYPE_OFFSET, TypeBytes(q.typ))
  }

  function AfterValue(q: TypedParameter, text: Addr): (rec: Bytes)
    requires Canonical(q)
    ensures |rec| == RECORD_SIZE
  {
    Splice(AfterType(q), VALUE_OFFSET, ValueBytes(q.value, text))
  }

  lemma ZerosBits(n: nat)
    ensures FromLE(Zeros(n)) == 0
  {
    if n > 0 {
      assert Zeros(n)[1..] == Zeros(n - 1);
      ZerosBits(n - 1);
    }
  }

  /** The three stores do not disturb each other. */
  lemma BuildLayout(q: TypedParameter, vb: Bytes, rec: Bytes)
    requires Canonical(q) && |vb| <= 8
    requires rec == Splice(AfterType(q), VALUE_OFFSET, vb)
    ensures q.field <= rec[..FIELD_LENGTH] && rec[..FIELD_LENGTH][|q.field|] == NUL
    ensures AfterType(q)[TYPE_OFFSET..TYPE_OFFSET + 4] == rec[TYPE_OFFSET..TYPE_OFFSET + 4] == TypeBytes(q.typ)
    ensures AfterType(q)[VALUE_OFFSET..VALUE_OFFSET + 8] == Zeros(8)
    ensures rec[VALUE_OFFSET..VALUE_OFFSET + |vb|] == vb
    ensures rec[VALUE_OFFSET] == if vb == [] then NUL else vb[0]
  {
    hide Splice, TypeBytes, Zeros, Canonical, AfterField, AfterType;
    FieldSlice(q, vb, rec);
    TypeSlice(q, vb, rec);
    ValueSlice(q, vb, rec);
  }

  lemma FieldSlice(q: TypedParameter, vb: Bytes, rec: Bytes)
    requires Canonical(q) && |vb| <= 8 && rec == Splice(AfterType(q), VALUE_OFFSET, vb)
    ensures q.field <= rec[..FIELD_LENGTH] && rec[..FIELD_LENGTH][|q.field|] == NUL
  {
    assert |q.field| < FIELD_LENGTH;
    SpliceSlices(AfterField(q), TYPE_OFFSET, TypeBytes(q.typ), 0, FIELD_LENGTH);
    SpliceSlices(AfterType(q), VALUE_OFFSET, vb, 0, FIELD_LENGTH);
    hide TypeBytes, Canonical;
    assert rec[..FIELD_LENGTH] == AfterField(q)[..FIELD_LENGTH];
  }

  lemma TypeSlice(q: TypedParameter, vb: Bytes, rec: Bytes)
    requires Canonical(q) && |vb| <= 8 && rec == Splice(AfterType(q), VALUE_OFFSET, vb)
    ensures AfterType(q)[TYPE_OFFSET..TYPE_OFFSET + 4] == rec[TYPE_OFFSET..TYPE_OFFSET + 4] == TypeBytes(q.typ)
  {
    hide Splice, TypeBytes, Canonical, AfterField;
    SpliceSlices(AfterField(q), TYPE_OFFSET, TypeBytes(q.typ), 0, 0);
    SpliceSlices(AfterType(q), VALUE_OFFSET, vb, TYPE_OFFSET, TYPE_OFFSET + 4);
  }

  lemma ValueSlice(q: TypedParameter, vb: Bytes, rec: Bytes)
    requires Canonical(q) && |vb| <= 8 && rec == Splice(AfterType(q), VALUE_OFFSET, vb)
    ensures AfterType(q)[VALUE_OFFSET..VALUE_OFFSET + 8] == Zeros(8)
    ensures rec[VALUE_OFFSET..VALUE_OFFSET + |vb|] == vb
    ensures rec[VALUE_OFFSET] == if vb == [] then NUL else vb[0]
  {
    UntouchedValue(q);
    hide TypeBytes, Zeros, Canonical, AfterField, AfterType;
    SpliceSlices(AfterType(q), VALUE_OFFSET, vb, 0, 0);
    assert AfterType(q)[VALUE_OFFSET] == AfterType(q)[VALUE_OFFSET..VALUE_OFFSET + 8][0];
    assert vb != [] ==> rec[VALUE_OFFSET] == rec[VALUE_OFFSET..VALUE_OFFSET + |vb|][0];
  }

  lemma UntouchedValue(q: TypedParameter)
    requires Canonical(q)
    ensures AfterType(q)[VALUE_OFFSET..VALUE_OFFSET + 8] == Zeros(8)
  {
    assert |q.field| < FIELD_LENGTH;
    hide Splice, TypeBytes, Canonical;
    SpliceSlices(Zeros(RECORD_SIZE), 0, q.field, VALUE_OFFSET, VALUE_OFFSET + 8);
    SpliceSlices(AfterField(q), TYPE_OFFSET, TypeBytes(q.typ), VALUE_OFFSET, VALUE_OFFSET + 8);
    assert Zeros(RECORD_SIZE)[VALUE_OFFSET..VALUE_OFFSET + 8] == Zeros(8);
  }

  /** The stored tag and field read back. */
  lemma HeaderReadsBack(q: TypedParameter, vb: Bytes, rec: Bytes)
    requires Canonical(q) && |vb| <= 8
    requires rec == Splice(AfterType(q), VALUE_OFFSET, vb)
    ensures ReadCell(rec).field == q.field && ReadCell(rec).typ == q.typ
  {
    BuildLayout(q, vb, rec);
    Widths();
    FromLEOfLE(Unsigned(q.typ, 0x1_0000_0000), 4);
    var field := rec[..FIELD_LENGTH];
    assert field[..|q.field|] == q.field;
  }

  /** Before its value is stored, as when a string's malloc fails, a record owns nothing. */
  lemma BlankOwnsNothing(q: TypedParameter)
    requires Canonical(q)
    ensures !OwnsString(ReadCell(Zeros(RECORD_SIZE))) && !OwnsString(ReadCell(AfterType(q)))
  {
    BuildLayout(q, [], Splice(AfterType(q), VALUE_OFFSET, []));
    ZerosBits(8);
    assert Zeros(RECORD_SIZE)[VALUE_OFFSET..VALUE_OFFSET + 8] == Zeros(8);
  }

  /** A finished record encodes the parameter. */
  lemma BuildEncodes(h: Blocks, q: TypedParameter, text: Addr)
    requires Canonical(q)
    requires q.value.String? ==> text != NULL && text in h && h[text] == q.value.text + [NUL]
    ensures Encodes(h, ReadCell(AfterValue(q, text)), q)
    ensures q.value.String? ==> ReadCell(AfterValue(q, text)).long == text
  {
    var vb, rec := ValueBytes(q.value, text), AfterValue(q, text);
    BuildLayout(q, vb, rec);
    HeaderReadsBack(q, vb, rec);
    Widths();
    match q.value {
      case Int32(v) => FromLEOfLE(Unsigned(v, 0x1_0000_0000), 4);
      case UInt32(v) => FromLEOfLE(v, 4);
      case Int64(v) => FromLEOfLE(Unsigned(v, 0x1_0000_0000_0000_0000), 8);
      case UInt64(v) => FromLEOfLE(v, 8);
      case Float64(v) => FromLEOfLE(v, 8);
      case Bool(_) =>
      case String(_) => FromLEOfLE(text, 8);
    }
  }
}
