/** The text-level helpers of the OBJ loader (glengine/src/ObjLoader.cpp):
    whitespace tokenising as done by `istringstream >> string`, integer
    parsing as done by `std::stoi`, the face-element parser `parse_element`
    and the index resolver `fix_index`. */
module ObjText {

  /** The exceptions the loader can raise while reading faces. */
  datatype LoadError =
    | InvalidArgument   // std::stoi found no digits
    | IntOutOfRange     // std::stoi: the value does not fit an int
    | IndexOutOfRange   // std::vector::at on an index outside its pool

  datatype Result<T> = Ok(value: T) | Err(error: LoadError)
  {
    predicate IsFailure() { Err? }

    function PropagateFailure<U>(): Result<U>
      requires Err?
    {
      Err(error)
    }

    function Extract(): T
      requires Ok?
    {
      value
    }
  }

  const IntMin: int := -0x8000_0000
  const IntMax: int := 0x7FFF_FFFF

  // ---------------------------------------------------------------------
  // Tokens: reading a word from a string stream skips white space and reads
  // a maximal non-space run

  predicate IsSpace(c: char)
  {
    c == ' ' || c == '\t' || c == '\n' || c == '\r' || c == '\U{0B}' || c == '\U{0C}'
  }

  predicate IsWord(t: string)
  {
    t != [] && forall i | 0 <= i < |t| :: !IsSpace(t[i])
  }

  /** Length of the maximal prefix of `s` that holds no white space. */
  function WordLength(s: string): (n: nat)
    ensures n <= |s|
    ensures forall i | 0 <= i < n :: !IsSpace(s[i])
    ensures n < |s| ==> IsSpace(s[n])
  {
    if s == [] || IsSpace(s[0]) then 0 else 1 + WordLength(s[1..])
  }

  /** The successive words a string stream yields for a line. */
  function Tokens(s: string): (r: seq<string>)
    ensures forall k | 0 <= k < |r| :: IsWord(r[k])
    decreases |s|
  {
    if s == [] then []
    else if IsSpace(s[0]) then Tokens(s[1..])
    else
      var n := WordLength(s);
      [s[..n]] + Tokens(s[n..])
  }

  /** Words separated by single spaces: the way a line of an OBJ file is
      written. */
  function Unwords(ts: seq<string>): string
  {
    if ts == [] then [] else if |ts| == 1 then ts[0] else ts[0] + " " + Unwords(ts[1..])
  }

  lemma {:induction false} TokensOfWordThenRest(w: string, rest: string)
    requires IsWord(w)
    requires rest == [] || IsSpace(rest[0])
    ensures Tokens(w + rest) == [w] + Tokens(rest)
  {
    var s := w + rest;
    WordLengthOfWord(w, rest);
    assert s[..|w|] == w;
    assert s[|w|..] == rest;
  }

  lemma {:induction false} WordLengthOfWord(w: string, rest: string)
    requires IsWord(w)
    requires rest == [] || IsSpace(rest[0])
    ensures WordLength(w + rest) == |w|
    decreases |w|
  {
    var s := w + rest;
    if |w| == 1 {
      assert s[1..] == rest;
    } else {
      assert s[1..] == w[1..] + rest;
      WordLengthOfWord(w[1..], rest);
    }
  }

  /** Tokenising is the inverse of writing words separated by spaces. */
  lemma {:induction false} TokensUnwords(ts: seq<string>)
    requires forall k | 0 <= k < |ts| :: IsWord(ts[k])
    ensures Tokens(Unwords(ts)) == ts
  {
    if ts == [] {
    } else if |ts| == 1 {
      TokensOfWordThenRest(ts[0], []);
      assert ts[0] + [] == ts[0];
    } else {
      var rest := " " + Unwords(ts[1..]);
      assert Unwords(ts) == ts[0] + rest;
      TokensOfWordThenRest(ts[0], rest);
      assert rest[1..] == Unwords(ts[1..]);
      TokensUnwords(ts[1..]);
      assert ts == [ts[0]] + ts[1..];
    }
  }

  // ---------------------------------------------------------------------
  // std::stoi: optional sign, then decimal digits up to the first non-digit

  predicate IsDigit(c: char) { '0' <= c <= '9' }

  /** Length of the maximal prefix of `s` made of digits. */
  function DigitRun(s: string): (n: nat)
    ensures n <= |s|
    ensures forall i | 0 <= i < n :: IsDigit(s[i])
    ensures n < |s| ==> !IsDigit(s[n])
  {
    if s == [] || !IsDigit(s[0]) then 0 else 1 + DigitRun(s[1..])
  }

  /** The decimal value of a string of digits. */
  function DigitsValue(s: string): nat
    requires forall i | 0 <= i < |s| :: IsDigit(s[i])
  {
    if s == [] then 0
    else 10 * DigitsValue(s[..|s| - 1]) + DigitValue(s[|s| - 1])
  }

  function DigitValue(c: char): nat
    requires IsDigit(c)
  {
    (c as int) - ('0' as int)
  }

  /** `std::stoi(s)` in base 10, on a string with no leading white space. */
  function StoI(s: string): (r: Result<int>)
    ensures r.Ok? ==> IntMin <= r.value <= IntMax
    ensures r == Err(InvalidArgument) <==>
      DigitRun(if |s| > 0 && (s[0] == '-' || s[0] == '+') then s[1..] else s) == 0
    ensures r.Err? ==> r.error != IndexOutOfRange
  {
    var signed := |s| > 0 && (s[0] == '-' || s[0] == '+');
    var digits := if signed then s[1..] else s;
    var n := DigitRun(digits);
    if n == 0 then Err(InvalidArgument)
    else
      var magnitude: int := DigitsValue(digits[..n]);
      var value: int := if |s| > 0 && s[0] == '-' then -magnitude else magnitude;
      if value < IntMin || value > IntMax then Err(IntOutOfRange) else Ok(value)
  }

  function DigitChar(d: nat): char
    requires d < 10
  {
    (('0' as int) + d) as char
  }

  /** Decimal rendering of a natural number, most significant digit first. */
  function NatDigits(n: nat): string
  {
    if n < 10 then [DigitChar(n)] else NatDigits(n / 10) + [DigitChar(n % 10)]
  }

  /** Decimal rendering of an integer, with a leading '-' when negative. */
  function IntToString(i: int): string
  {
    if i < 0 then "-" + NatDigits(-i) else NatDigits(i)
  }

  lemma {:induction false} NatDigitsValue(n: nat)
    ensures |NatDigits(n)| > 0
    ensures forall i | 0 <= i < |NatDigits(n)| :: IsDigit(NatDigits(n)[i])
    ensures DigitsValue(NatDigits(n)) == n
  {
    if n >= 10 {
      NatDigitsValue(n / 10);
      var s := NatDigits(n);
      assert s[..|s| - 1] == NatDigits(n / 10);
    }
  }

  lemma {:induction false} DigitRunAll(s: string)
    requires forall i | 0 <= i < |s| :: IsDigit(s[i])
    ensures DigitRun(s) == |s|
  {
    if s != [] {
      DigitRunAll(s[1..]);
    }
  }

  /** std::stoi reads back every int written in decimal. */
  lemma StoIRoundTrip(i: int)
    requires IntMin <= i <= IntMax
    ensures StoI(IntToString(i)) == Ok(i)
  {
    var d := NatDigits(if i < 0 then -i else i);
    NatDigitsValue(if i < 0 then -i else i);
    DigitRunAll(d);
    assert d[..|d|] == d;
    if i < 0 {
      assert IntToString(i)[1..] == d;
    }
  }

  // ---------------------------------------------------------------------
  // parse_element

  /** An OBJ face index triplet (v, vt, vn). The same type holds the raw
      1-based indices read from a token and their zero-based resolution. */
  datatype Triplet = Triplet(v: int, vt: int, vn: int)

  /** `IndexTriplet{}`: every member takes its default -1. */
  const Unset := Triplet(-1, -1, -1)

  /** Index of the first '/' in tok at or after `from`, or -1. */
  function SlashFrom(tok: string, from: nat): (r: int)
    ensures r == -1 || (from <= r < |tok| && tok[r] == '/')
    ensures forall k | from <= k < |tok| && (r == -1 || k < r) :: tok[k] != '/'
    decreases |tok| - from
  {
    if from >= |tok| then -1 else if tok[from] == '/' then from else SlashFrom(tok, from + 1)
  }

  /** The slash scan of parse_element: positions of the first and second '/'
      (-1 when absent), stopping at the second. */
  method ScanSlashes(tok: string) returns (slash1: int, slash2: int)
    ensures slash1 == -1 <==> forall k | 0 <= k < |tok| :: tok[k] != '/'
    ensures slash1 != -1 ==> 0 <= slash1 < |tok| && tok[slash1] == '/'
    ensures slash1 == SlashFrom(tok, 0)
    ensures slash2 == (if slash1 == -1 then -1 else SlashFrom(tok, slash1 + 1))
  {
    slash1, slash2 := -1, -1;
    var i := 0;
    while i < |tok|
      invariant 0 <= i <= |tok|
      invariant slash2 == -1
      invariant slash1 == -1 ==> SlashFrom(tok, 0) == SlashFrom(tok, i)
      invariant slash1 != -1 ==> 0 <= slash1 < i && slash1 == SlashFrom(tok, 0)
      invariant slash1 != -1 ==> SlashFrom(tok, slash1 + 1) == SlashFrom(tok, i)
    {
      if tok[i] == '/' {
        if slash1 == -1 {
          slash1 := i;
        } else {
          slash2 := i;
          break;
        }
      }
      i := i + 1;
    }
  }

  /** The `toInt(beg, end)` lambda on the field tok[beg..end]: an empty
      field reads as 0, any other goes through std::stoi. */
  function FieldOf(s: string): Result<int>
  {
    if s == [] then Ok(0) else StoI(s)
  }

  /** The slicing half of parse_element: given the positions of the first
      and second slash (-1 when absent), read the fields between them. */
  function FieldsAt(tok: string, slash1: int, slash2: int): Result<Triplet>
    requires -1 <= slash1 < |tok|
    requires slash2 == -1 || (slash1 != -1 && slash1 < slash2 < |tok|)
  {
    if slash1 == -1 then
      var v :- FieldOf(tok);
      Ok(Unset.(v := v))
    else if slash2 == -1 then
      var v :- FieldOf(tok[..slash1]);
      var vt :- FieldOf(tok[slash1 + 1..]);
      Ok(Unset.(v := v, vt := vt))
    else
      var v :- FieldOf(tok[..slash1]);
      var vt :- if slash2 == slash1 + 1 then Ok(0) else FieldOf(tok[slash1 + 1..slash2]);
      var vn :- FieldOf(tok[slash2 + 1..]);
      Ok(Triplet(v, vt, vn))
  }

  /** What parse_element returns (or throws) for a token. */
  function ElementOf(tok: string): Result<Triplet>
  {
    var slash1 := SlashFrom(tok, 0);
    FieldsAt(tok, slash1, if slash1 == -1 then -1 else SlashFrom(tok, slash1 + 1))
  }

  /** parse_element: scan for the slashes, then read the fields between them. */
  method ParseElement(tok: string) returns (r: Result<Triplet>)
    ensures r == ElementOf(tok)
  {
    var slash1, slash2 := ScanSlashes(tok);
    r := FieldsAt(tok, slash1, slash2);
  }

  predicate NoSlash(s: string) { forall k | 0 <= k < |s| :: s[k] != '/' }

  /** parse_element on a token with no slash: only v is read; vt and vn keep
      their default -1. */
  lemma ElementNoSlash(a: string)
    requires NoSlash(a)
    ensures ElementOf(a) == (var v :- FieldOf(a); Ok(Triplet(v, -1, -1)))
  {
    assert SlashFrom(a, 0) == -1;
  }

  /** parse_element on `a/b`: v and vt are read left to right, vn keeps -1;
      an empty field reads as 0. */
  lemma ElementOneSlash(a: string, b: string)
    requires NoSlash(a) && NoSlash(b)
    ensures ElementOf(a + "/" + b) ==
      (var v :- FieldOf(a); var vt :- FieldOf(b); Ok(Triplet(v, vt, -1)))
  {
    var t := a + "/" + b;
    assert t[|a|] == '/';
    assert SlashFrom(t, 0) == |a|;
    assert SlashFrom(t, |a| + 1) == -1;
    assert t[..|a|] == a;
    assert t[|a| + 1..] == b;
  }

  /** parse_element on `a/b/c`: all three fields are read left to right, the
      first failing one decides the error, and an empty middle field (the
      `v//vn` shape) reads as 0. Anything after a third slash is left to
      std::stoi, which stops at the first non-digit. */
  lemma ElementTwoSlashes(a: string, b: string, c: string)
    requires NoSlash(a) && NoSlash(b)
    ensures ElementOf(a + "/" + b + "/" + c) ==
      (var v :- FieldOf(a); var vt :- FieldOf(b); var vn :- FieldOf(c); Ok(Triplet(v, vt, vn)))
  {
    var t := a + "/" + b + "/" + c;
    var s1, s2 := |a|, |a| + 1 + |b|;
    assert t[..s1] == a && t[s1 + 1..s2] == b && t[s2 + 1..] == c;
    assert forall k | 0 <= k < s1 :: t[k] == a[k];
    assert forall k | s1 + 1 <= k < s2 :: t[k] == b[k - s1 - 1];
    SlashFromAt(t, 0, s1);
    SlashFromAt(t, s1 + 1, s2);
    FieldsAtTwo(t, s1, s2);
  }

  lemma SlashFromAt(tok: string, from: nat, r: nat)
    requires from <= r < |tok| && tok[r] == '/'
    requires forall k | from <= k < r :: tok[k] != '/'
    ensures SlashFrom(tok, from) == r
  {
  }

  /** The three fields around two slashes. */
  lemma FieldsAtTwo(tok: string, s1: nat, s2: nat)
    requires s1 < s2 < |tok|
    ensures FieldsAt(tok, s1, s2) ==
      (var v :- FieldOf(tok[..s1]); var vt :- FieldOf(tok[s1 + 1..s2]); var vn :- FieldOf(tok[s2 + 1..]);
       Ok(Triplet(v, vt, vn)))
  {
    if s2 == s1 + 1 {
      assert tok[s1 + 1..s2] == [];
    }
  }

  /** The four face-element shapes an OBJ writer produces. */
  datatype FaceElement =
    | PosOnly(v: int)                          // v
    | PosUv(v: int, vt: int)                   // v/vt
    | PosNormal(v: int, vn: int)               // v//vn
    | PosUvNormal(v: int, vt: int, vn: int)    // v/vt/vn

  function FormatElement(e: FaceElement): string
  {
    match e
    case PosOnly(v) => IntToString(v)
    case PosUv(v, vt) => IntToString(v) + "/" + IntToString(vt)
    case PosNormal(v, vn) => IntToString(v) + "//" + IntToString(vn)
    case PosUvNormal(v, vt, vn) => IntToString(v) + "/" + IntToString(vt) + "/" + IntToString(vn)
  }

  predicate InIntRange(e: FaceElement)
  {
    match e
    case PosOnly(v) => IntMin <= v <= IntMax
    case PosUv(v, vt) => IntMin <= v <= IntMax && IntMin <= vt <= IntMax
    case PosNormal(v, vn) => IntMin <= v <= IntMax && IntMin <= vn <= IntMax
    case PosUvNormal(v, vt, vn) =>
      IntMin <= v <= IntMax && IntMin <= vt <= IntMax && IntMin <= vn <= IntMax
  }

  lemma {:induction false} NatDigitsNoSlash(n: nat)
    ensures NoSlash(NatDigits(n)) && NatDigits(n) != []
  {
    NatDigitsValue(n);
  }

  lemma IntToStringShape(i: int)
    requires IntMin <= i <= IntMax
    ensures NoSlash(IntToString(i)) && IntToString(i) != []
    ensures FieldOf(IntToString(i)) == Ok(i)
  {
    NatDigitsNoSlash(if i < 0 then -i else i);
    StoIRoundTrip(i);
  }

  /** Reading back a written face element: `v` leaves vt = vn = -1, `v/vt`
      leaves vn = -1, `v//vn` gives vt = 0 (the OBJ "missing" marker), and
      `v/vt/vn` gives all three. */
  lemma ParseFormatted(e: FaceElement)
    requires InIntRange(e)
    ensures ElementOf(FormatElement(e)) == Ok(match e
      case PosOnly(v) => Triplet(v, -1, -1)
      case PosUv(v, vt) => Triplet(v, vt, -1)
      case PosNormal(v, vn) => Triplet(v, 0, vn)
      case PosUvNormal(v, vt, vn) => Triplet(v, vt, vn))
  {
    match e
    case PosOnly(v) =>
      IntToStringShape(v);
      ElementNoSlash(IntToString(v));
    case PosUv(v, vt) =>
      ReadBackTwo(v, vt);
    case PosNormal(v, vn) =>
      ReadBackSkip(v, vn);
    case PosUvNormal(v, vt, vn) =>
      ReadBackThree(v, vt, vn);
  }

  lemma ReadBackTwo(v: int, vt: int)
    requires IntMin <= v <= IntMax && IntMin <= vt <= IntMax
    ensures ElementOf(IntToString(v) + "/" + IntToString(vt)) == Ok(Triplet(v, vt, -1))
  {
    IntToStringShape(v);
    IntToStringShape(vt);
    ElementOneSlash(IntToString(v), IntToString(vt));
  }

  lemma ReadBackThree(v: int, vt: int, vn: int)
    requires IntMin <= v <= IntMax && IntMin <= vt <= IntMax && IntMin <= vn <= IntMax
    ensures ElementOf(IntToString(v) + "/" + IntToString(vt) + "/" + IntToString(vn)) == Ok(Triplet(v, vt, vn))
  {
    IntToStringShape(v);
    IntToStringShape(vt);
    IntToStringShape(vn);
    ElementTwoSlashes(IntToString(v), IntToString(vt), IntToString(vn));
  }

  lemma ReadBackSkip(v: int, vn: int)
    requires IntMin <= v <= IntMax && IntMin <= vn <= IntMax
    ensures ElementOf(IntToString(v) + "//" + IntToString(vn)) == Ok(Triplet(v, 0, vn))
  {
    var a, c := IntToString(v), IntToString(vn);
    IntToStringShape(v);
    IntToStringShape(vn);
    assert a + "//" + c == a + "/" + "" + "/" + c;
    ElementTwoSlashes(a, "", c);
  }

  // ---------------------------------------------------------------------
  // fix_index

  /** fix_index: OBJ index (1-based, negative counts back from the end) to a
      zero-based index into a pool of size n; 0 stands for "missing" and gives -1. */
  function FixIndex(idx: int, n: nat): (r: int)
    ensures 0 <= r < n <==> (1 <= idx <= n || -(n as int) <= idx <= -1)
    ensures idx > n ==> r >= n
    ensures idx < -(n as int) ==> r < 0
    ensures idx == 0 ==> r == -1
  {
    if idx > 0 then idx - 1
    else if idx < 0 then n + idx
    else -1
  }

  /** Positive index k and negative index k - n - 1 name the same element:
      `-1` is the last one declared, `-n` the first. */
  lemma FixIndexCountsBack(k: int, n: nat)
    requires 1 <= k <= n
    ensures FixIndex(k - n - 1, n) == FixIndex(k, n) == k - 1
  {
  }
}
