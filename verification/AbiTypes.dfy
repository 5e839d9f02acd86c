/** How the generator maps the C types of the API documents to Go types of the same size. */
module AbiTypes {
  import opened Bytes
  import opened Text

  // ----- Reading a C type -----

  datatype Parsed = Parsed(name: Bytes, depth: nat)

  /** The words of a type joined by single blanks, "const" left out. */
  function Joined(words: seq<Bytes>): Bytes {
    if words == [] then []
    else
      var front, last := Joined(words[..|words| - 1]), words[|words| - 1];
      if last == "const" then front else if front == [] then last else front + " " + last
  }

  /** Each blank before a star is dropped. */
  function Squeezed(s: Bytes): Bytes {
    if s == [] then []
    else if |s| >= 2 && s[0] == ' ' && s[1] == '*' then ['*'] + Squeezed(s[2..])
    else [s[0]] + Squeezed(s[1..])
  }

  function TrimRight(s: Bytes): (r: Bytes)
    ensures |r| <= |s| && r == s[..|r|]
  {
    if s != [] && s[|s| - 1] == ' ' then TrimRight(s[..|s| - 1]) else s
  }

  /** The stars at the end, counted. */
  function Stripped(s: Bytes): Parsed {
    if s == [] || s[|s| - 1] != '*' then Parsed(s, 0)
    else
      var inner := Stripped(TrimRight(s[..|s| - 1]));
      Parsed(inner.name, inner.depth + 1)
  }

  function Parse(words: seq<Bytes>): Parsed {
    Stripped(Squeezed(Joined(words)))
  }

  // ----- What the reading means -----

  function Stars(n: nat): (s: Bytes)
    ensures |s| == n && forall i | 0 <= i < n :: s[i] == '*'
  {
    seq(n, _ => '*')
  }

  /** A name as it stands before the stars: not empty, without a star, and not ending in a blank. */
  predicate PlainName(name: Bytes) {
    name != [] && '*' !in name && name[|name| - 1] != ' '
  }

  lemma {:induction false} StrippedStars(name: Bytes, n: nat)
    requires PlainName(name)
    ensures Stripped(name + Stars(n)) == Parsed(name, n)
  {
    var s := name + Stars(n);
    if n == 0 {
      assert s == name && name[|name| - 1] in name;
    } else {
      assert s[..|s| - 1] == name + Stars(n - 1);
      StrippedStars(name, n - 1);
    }
  }

  lemma {:induction false} OnlyStars(n: nat)
    ensures Squeezed(Stars(n)) == Stars(n)
  {
    if n == 0 {
    } else {
      assert Stars(n)[1..] == Stars(n - 1) && Stars(n) == ['*'] + Stars(n - 1);
      OnlyStars(n - 1);
    }
  }

  lemma {:induction false} SqueezedStars(name: Bytes, n: nat)
    requires '*' !in name && (name != [] ==> name[|name| - 1] != ' ')
    ensures Squeezed(name + Stars(n)) == name + Stars(n)
  {
    var s := name + Stars(n);
    if name == [] {
      assert s == Stars(n);
      OnlyStars(n);
    } else {
      assert s[0] == name[0] && s[1..] == name[1..] + Stars(n);
      assert |name| == 1 ==> name[0] != ' ';
      assert |name| > 1 ==> s[1] == name[1] && name[1] in name;
      SqueezedStars(name[1..], n);
      assert name == [name[0]] + name[1..];
    }
  }

  /** A blank and further stars at the end only add the stars. */
  lemma {:induction false} SqueezedMore(front: Bytes, m: nat)
    requires (front != [] ==> front[|front| - 1] != ' ') && m > 0
    ensures Squeezed(front + " " + Stars(m)) == Squeezed(front) + Stars(m)
  {
    var s := front + " " + Stars(m);
    if front == [] {
      assert s[2..] == Stars(m - 1);
      OnlyStars(m - 1);
      assert ['*'] + Stars(m - 1) == Stars(m);
    } else if |front| >= 2 && front[0] == ' ' && front[1] == '*' {
      assert s[2..] == front[2..] + " " + Stars(m);
      SqueezedMore(front[2..], m);
    } else {
      assert s[1..] == front[1..] + " " + Stars(m);
      SqueezedMore(front[1..], m);
    }
  }

  /** The stars of the words behind a name. */
  function StarCount(words: seq<Bytes>): nat {
    if words == [] then 0
    else StarCount(words[..|words| - 1]) + if words[|words| - 1] == "const" then 0 else |words[|words| - 1]|
  }

  predicate IsQualifier(word: Bytes) {
    word == "const" || (word != [] && word == Stars(|word|))
  }

  /** A name and then stars and consts in any grouping: the name is what is left, the depth is the number of stars. */
  lemma {:induction false} ParseExact(base: seq<Bytes>, tail: seq<Bytes>)
    requires PlainName(Joined(base)) && forall w | w in tail :: IsQualifier(w)
    ensures Parse(base + tail) == Parsed(Joined(base), StarCount(tail))
  {
    SqueezedTail(base, tail);
    StrippedStars(Joined(base), StarCount(tail));
  }

  lemma {:induction false} SqueezedTail(base: seq<Bytes>, tail: seq<Bytes>)
    requires PlainName(Joined(base)) && forall w | w in tail :: IsQualifier(w)
    ensures var all := Joined(base + tail);
      && all != [] && all[|all| - 1] != ' '
      && Squeezed(all) == Joined(base) + Stars(StarCount(tail))
  {
    var name := Joined(base);
    if tail == [] {
      assert base + tail == base && name + Stars(0) == name;
      SqueezedStars(name, 0);
    } else {
      var front, last := tail[..|tail| - 1], tail[|tail| - 1];
      assert (base + tail)[..|base + tail| - 1] == base + front && (base + tail)[|base + tail| - 1] == last;
      SqueezedTail(base, front);
      assert last in tail;
      MoreTail(Joined(base + front), name, StarCount(front), last);
      assert Stars(StarCount(front)) + Stars(|last|) == Stars(StarCount(front) + |last|);
    }
  }

  /** One more word behind the name. */
  lemma MoreTail(all: Bytes, name: Bytes, n: nat, last: Bytes)
    requires IsQualifier(last) && all != [] && all[|all| - 1] != ' ' && Squeezed(all) == name + Stars(n)
    ensures last != "const" ==>
      var more := all + " " + last;
      more[|more| - 1] != ' ' && Squeezed(more) == name + (Stars(n) + Stars(|last|))
  {
    if last != "const" {
      SqueezedMore(all, |last|);
    }
  }

  // ----- The mapping -----

  // The base types the mapping knows, and the two families it knows by name.
  datatype Base = Void | Char | UChar | Int | UInt | Long | ULong | LongLong | ULongLong | SizeT | Double
    | Callback | Handle

  datatype GoType =
    | NoResult
    | Int8 | Uint8 | Int32 | Uint32 | GoInt | Uintptr | Int64 | Uint64 | Float64
    | UnsafePointer
    | PointerTo(element: GoType)

  predicate HasSuffix(s: Bytes, suffix: Bytes) {
    |suffix| <= |s| && s[|s| - |suffix|..] == suffix
  }

  /** The documented callback types are known beside the naming convention. */
  function BaseOf(name: Bytes, callbacks: set<Bytes>): Option<Base> {
    if name in callbacks || HasSuffix(name, "Callback") || HasSuffix(name, "Func") then Some(Callback)
    else if HasSuffix(name, "Ptr") then Some(Handle)
    else Scalar(name)
  }

  function Scalar(name: Bytes): Option<Base> {
    if name == "void" then Some(Void)
    else if name == "char" then Some(Char)
    else if name == "unsigned char" then Some(UChar)
    else if name == "int" then Some(Int)
    else if name == "unsigned int" then Some(UInt)
    else if name == "long" then Some(Long)
    else if name == "unsigned long" then Some(ULong)
    else if name == "long long" then Some(LongLong)
    else if name == "unsigned long long" then Some(ULongLong)
    else if name == "size_t" then Some(SizeT)
    else if name == "double" then Some(Double)
    else None
  }

  function ScalarType(base: Base, result: bool): Option<GoType> {
    match base
    case Void => if result then Some(NoResult) else None
    case Char => Some(Int8)
    case UChar => Some(Uint8)
    case Int => Some(Int32)
    case UInt => Some(Uint32)
    case Long => Some(GoInt)
    case ULong => Some(Uintptr)
    case LongLong => Some(Int64)
    case ULongLong => Some(Uint64)
    case SizeT => Some(Uintptr)
    case Double => Some(Float64)
    case _ => None
  }

  function PointerType(base: Base, result: bool): Option<GoType> {
    match base
    case Void => Some(UnsafePointer)
    case Char => Some(if result then UnsafePointer else PointerTo(Uint8))
    case UChar => Some(if result then UnsafePointer else PointerTo(Uint8))
    case Int => Some(PointerTo(Int32))
    case UInt => Some(PointerTo(Uint32))
    case Long => Some(PointerTo(GoInt))
    case ULong => Some(PointerTo(Uintptr))
    case LongLong => Some(PointerTo(Int64))
    case ULongLong => Some(PointerTo(Uint64))
    case SizeT => Some(PointerTo(Uintptr))
    case Double => Some(PointerTo(Float64))
    case _ => None
  }

  /** goABIType; None is its error. A name it does not know is allowed behind two or more stars only. */
  function GoABIType(words: seq<Bytes>, result: bool, callbacks: set<Bytes>): Option<GoType> {
    var parsed := Parse(words);
    var base := BaseOf(parsed.name, callbacks);
    if base == Some(Callback) then Some(if parsed.depth == 0 then Uintptr else PointerTo(Uintptr))
    else if base == Some(Handle) then
      Some(if parsed.depth == 0 || result then UnsafePointer else PointerTo(UnsafePointer))
    else if parsed.depth > 1 then Some(if result then UnsafePointer else PointerTo(UnsafePointer))
    else if base == None then None
    else if parsed.depth == 1 then PointerType(base.value, result)
    else ScalarType(base.value, result)
  }

  // ----- The two sides agree -----

  // How wide int, long and pointers are: all 4 bytes; 4, 8, 8; 4, 4, 8.
  datatype DataModel = ILP32 | LP64 | LLP64

  function WordSize(model: DataModel): nat {
    if model.ILP32? then 4 else 8
  }

  /** Bytes of a C value. */
  function CSize(model: DataModel, base: Base): nat {
    match base
    case Void => 0
    case Char => 1
    case UChar => 1
    case Int => 4
    case UInt => 4
    case Long => if model.LP64? then 8 else 4
    case ULong => if model.LP64? then 8 else 4
    case LongLong => 8
    case ULongLong => 8
    case SizeT => WordSize(model)
    case Double => 8
    case Callback => WordSize(model)
    case Handle => WordSize(model)
  }

  /** Bytes of a Go value; int and uintptr have the width of a pointer. */
  function GoSize(model: DataModel, t: GoType): nat {
    match t
    case NoResult => 0
    case Int8 => 1
    case Uint8 => 1
    case Int32 => 4
    case Uint32 => 4
    case GoInt => WordSize(model)
    case Uintptr => WordSize(model)
    case Int64 => 8
    case Uint64 => 8
    case Float64 => 8
    case UnsafePointer => WordSize(model)
    case PointerTo(_) => WordSize(model)
  }

  predicate Signed(base: Base) {
    base in {Char, Int, Long, LongLong}
  }

  /** A Go value and a C value have the same size, sign and registers. */
  predicate SameValue(model: DataModel, t: GoType, base: Base) {
    && CSize(model, base) == GoSize(model, t)
    && (Signed(base) <==> t in {Int8, Int32, GoInt, Int64})
    && (base == Double <==> t == Float64)
    && (base == Handle <==> t == UnsafePointer)
    && !t.PointerTo?
  }

  /**
   * A Go value stands for a C value behind depth stars: an untyped pointer for any address, a typed one for the
   * address of what its element stands for, where C's strings are Go's bytes, and a word for a callback or its address.
   */
  predicate StandsFor(model: DataModel, t: GoType, base: Option<Base>, depth: nat) {
    if base == Some(Callback) then
      match t
      case Uintptr => true
      case PointerTo(e) => depth > 0 && e == Uintptr
      case _ => false
    else if depth == 0 then base.Some? && SameValue(model, t, base.value)
    else
      match t
      case UnsafePointer => true
      case PointerTo(e) =>
        if depth == 1 && base == Some(Char) then e == Uint8 else StandsFor(model, e, base, depth - 1)
      case _ => false
  }

  /** The values in which no long is seen other than behind an untyped pointer. */
  predicate ShowsLong(t: GoType, base: Option<Base>) {
    base in {Some(Long), Some(ULong)} && t != UnsafePointer && t != PointerTo(UnsafePointer)
  }

  /**
   * Every mapped type stands for its C type where a long has the width of a pointer; where it does not, exactly those
   * that show a long do not.
   */
  lemma StandsForExact(model: DataModel, words: seq<Bytes>, result: bool, callbacks: set<Bytes>)
    requires GoABIType(words, result, callbacks).Some?
    ensures var t, p := GoABIType(words, result, callbacks).value, Parse(words);
      var base := BaseOf(p.name, callbacks);
      StandsFor(model, t, base, p.depth) <==> model != LLP64 || !ShowsLong(t, base)
  {
    hide Parse, BaseOf, StandsFor, PointerType, ScalarType;
    var t, p := GoABIType(words, result, callbacks).value, Parse(words);
    var base := BaseOf(p.name, callbacks);
    if base in {Some(Callback), Some(Handle)} {
      FamiliesStand(model, t, base, p.depth);
    } else if p.depth == 0 {
      ScalarsStand(model, t, base.value, result);
    } else if p.depth == 1 {
      PointersStand(model, t, base.value, result);
    } else {
      FamiliesStand(model, t, base, p.depth);
    }
  }

  lemma FamiliesStand(model: DataModel, t: GoType, base: Option<Base>, depth: nat)
    requires base in {Some(Callback), Some(Handle)} || depth > 1
    requires if base == Some(Callback) then t == if depth == 0 then Uintptr else PointerTo(Uintptr)
             else t == UnsafePointer || (depth > 0 && t == PointerTo(UnsafePointer))
    ensures StandsFor(model, t, base, depth) && !ShowsLong(t, base)
  {
    assert depth > 1 && base != Some(Callback) ==> StandsFor(model, UnsafePointer, base, depth - 1);
  }

  lemma ScalarsStand(model: DataModel, t: GoType, base: Base, result: bool)
    requires ScalarType(base, result) == Some(t)
    ensures StandsFor(model, t, Some(base), 0) <==> model != LLP64 || !ShowsLong(t, Some(base))
  {
  }

  lemma PointersStand(model: DataModel, t: GoType, base: Base, result: bool)
    requires PointerType(base, result) == Some(t)
    ensures StandsFor(model, t, Some(base), 1) <==> model != LLP64 || !ShowsLong(t, Some(base))
  {
  }

  /**
   * How typed a pointer is: a callback by value is a bare word and its address a typed one; strings and addresses of
   * addresses are typed as arguments only, and void behind one star and handles by value never.
   */
  lemma PointersExact(words: seq<Bytes>, result: bool, callbacks: set<Bytes>)
    requires GoABIType(words, result, callbacks).Some?
    ensures var t, p := GoABIType(words, result, callbacks).value, Parse(words);
      var base := BaseOf(p.name, callbacks);
      && (base == Some(Callback) ==> (t == Uintptr <==> p.depth == 0))
      && (t == UnsafePointer <==>
            base != Some(Callback) &&
            (  (base == Some(Handle) && p.depth == 0) || (base == Some(Void) && p.depth == 1)
            || (result && p.depth > 0 && (p.depth > 1 || base in {Some(Handle), Some(Char), Some(UChar)}))))
  {
    hide Parse, BaseOf;
  }

  /** The C name of a base type. */
  function CName(base: Base): Bytes
    requires base != Callback && base != Handle
  {
    match base
    case Void => "void"
    case Char => "char"
    case UChar => "unsigned char"
    case Int => "int"
    case UInt => "unsigned int"
    case Long => "long"
    case ULong => "unsigned long"
    case LongLong => "long long"
    case ULongLong => "unsigned long long"
    case SizeT => "size_t"
    case Double => "double"
  }

  /** The base types are known by their C names alone. */
  lemma NamesExact(name: Bytes, base: Base)
    requires base != Callback && base != Handle
    ensures Scalar(name) == Some(base) <==> name == CName(base)
  {
  }

  /** The two families go by the end of the name; a documented callback type is one whatever its name. */
  lemma FamiliesExact(name: Bytes, callbacks: set<Bytes>)
    ensures BaseOf(name, callbacks) == Some(Callback) <==>
      name in callbacks || exists stem: Bytes :: name == stem + "Callback" || name == stem + "Func"
    ensures BaseOf(name, callbacks) == Some(Handle) <==>
      BaseOf(name, callbacks) != Some(Callback) && exists stem: Bytes :: name == stem + "Ptr"
    ensures BaseOf(name, callbacks) !in {Some(Callback), Some(Handle)} ==> BaseOf(name, callbacks) == Scalar(name)
  {
    hide Scalar;
    ScalarIsNoFamily(name);
    SuffixExact(name, "Callback");
    SuffixExact(name, "Func");
    SuffixExact(name, "Ptr");
    hide HasSuffix;
  }

  lemma SuffixExact(s: Bytes, suffix: Bytes)
    ensures HasSuffix(s, suffix) <==> exists stem: Bytes :: s == stem + suffix
  {
    if HasSuffix(s, suffix) {
      assert s == s[..|s| - |suffix|] + suffix;
    }
  }

  /** Exactly these types have no Go type: unknown names up to one star, and void as an argument. */
  lemma MappedExact(words: seq<Bytes>, result: bool, callbacks: set<Bytes>)
    ensures var p := Parse(words); var base := BaseOf(p.name, callbacks);
      GoABIType(words, result, callbacks) == None <==>
        (base == None && p.depth <= 1) || (base == Some(Void) && p.depth == 0 && !result)
  {
    hide Parse, HasSuffix, Scalar;
    ScalarIsNoFamily(Parse(words).name);
  }

  lemma ScalarIsNoFamily(name: Bytes)
    ensures Scalar(name) != Some(Callback) && Scalar(name) != Some(Handle)
  {
  }
}
