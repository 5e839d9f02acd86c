/** The string functions of the Go library that the decoders call: strings.Cut at a dot and strconv.Atoi. */
module Text {
  import opened Bytes

  datatype Option<+T> = None | Some(value: T) {
    function GetOr(default: T): T {
      match this
      case Some(v) => v
      case None => default
    }
  }

  function IndexDot(s: Bytes): (n: nat)
    ensures n <= |s|
    ensures forall i | 0 <= i < n :: s[i] != '.'
    ensures n < |s| ==> s[n] == '.'
  {
    if s == [] || s[0] == '.' then 0 else 1 + IndexDot(s[1..])
  }

  datatype Halves = Halves(before: Bytes, after: Bytes, found: bool)

  /** strings.Cut(s, "."). */
  function Cut(s: Bytes): Halves {
    var n := IndexDot(s);
    if n == |s| then Halves(s, [], false) else Halves(s[..n], s[n + 1..], true)
  }

  /** Cut finds the one way of writing s as a dot-free part, a dot and the rest. */
  lemma CutExact(s: Bytes, a: Bytes, b: Bytes)
    ensures Cut(s) == Halves(a, b, true) <==> '.' !in a && s == a + "." + b
  {
    if '.' !in a && s == a + "." + b {
      assert s[|a|] == '.';
      assert forall i | 0 <= i < |a| :: s[i] == a[i] && a[i] in a;
      assert IndexDot(s) == |a|;
      assert s[|a| + 1..] == b;
    }
  }

  predicate IsDigit(c: byte) {
    '0' <= c <= '9'
  }

  predicate AllDigits(s: Bytes) {
    forall i | 0 <= i < |s| :: IsDigit(s[i])
  }

  function Decimal(s: Bytes): nat
    requires AllDigits(s)
  {
    if s == [] then 0 else 10 * Decimal(s[..|s| - 1]) + (s[|s| - 1] as int - '0' as int)
  }

  /** strconv.Atoi on a 64-bit platform: an optional sign, digits, and a value that fits. */
  function Atoi(s: Bytes): Option<i64> {
    var signed := s != [] && (s[0] == '+' || s[0] == '-');
    var digits := if signed then s[1..] else s;
    if digits == [] || !AllDigits(digits) then None
    else
      var n: int := Decimal(digits);
      if signed && s[0] == '-' then
        if n <= 0x8000_0000_0000_0000 then Some(-n) else None
      else if n < 0x8000_0000_0000_0000 then Some(n) else None
  }

  /** Atoi reads exactly the digits with at most one sign whose value fits into 64 bits. */
  lemma AtoiExact(s: Bytes, n: i64)
    ensures Atoi(s) == Some(n) <==>
      exists digits: Bytes | digits != [] && AllDigits(digits) ::
        || ((s == digits || s == "+" + digits) && Decimal(digits) == n)
        || (s == "-" + digits && Decimal(digits) + n == 0)
  {
    var signed := s != [] && (s[0] == '+' || s[0] == '-');
    var own := if signed then s[1..] else s;
    assert signed ==> s == [s[0]] + own;
    forall digits: Bytes | digits != [] && AllDigits(digits) && s in {digits, "+" + digits, "-" + digits}
      ensures own == digits
    {
      assert IsDigit(digits[0]);
    }
  }

  function Itoa(n: nat): (s: Bytes)
    ensures s != [] && AllDigits(s)
  {
    var last := ['0' + (n % 10) as char];
    if n < 10 then last else Itoa(n / 10) + last
  }

  lemma {:induction false} DecimalOfItoa(n: nat)
    ensures Decimal(Itoa(n)) == n
  {
    if n >= 10 {
      DecimalOfItoa(n / 10);
      assert Itoa(n)[..|Itoa(n)| - 1] == Itoa(n / 10);
    } else {
      assert Itoa(n)[..0] == [];
    }
  }

  /** Printing an index and parsing it back. */
  lemma AtoiOfItoa(n: i64)
    requires n >= 0
    ensures Atoi(Itoa(n)) == Some(n) && '.' !in Itoa(n)
  {
    DecimalOfItoa(n);
    var s := Itoa(n);
    assert IsDigit(s[0]);
  }
}
