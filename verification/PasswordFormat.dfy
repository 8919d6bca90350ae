/**
 The self-describing password hash (auth/password_hasher.py):
 `scrypt$<n>$<r>$<p>$<salt>$<digest>` with decimal numbers and the base64 of section 4 of
 RFC 4648. Key derivation is an uninterpreted function that may also refuse.
 */
module PasswordFormat {
  import opened Prelude
  import opened Text

  type Byte = b: int | 0 <= b < 256
  type Sextet = v: int | 0 <= v < 64

  // ------------------------------------------------------------------- base64

  function Digit64(v: Sextet): char {
    if v < 26 then ('A' as int + v) as char
    else if v < 52 then ('a' as int + v - 26) as char
    else if v < 62 then ('0' as int + v - 52) as char
    else if v == 62 then '+' else '/'
  }

  function Value64(c: char): Option<Sextet> {
    if 'A' <= c <= 'Z' then Some(c as int - 'A' as int)
    else if 'a' <= c <= 'z' then Some(c as int - 'a' as int + 26)
    else if '0' <= c <= '9' then Some(c as int - '0' as int + 52)
    else if c == '+' then Some(62)
    else if c == '/' then Some(63)
    else None
  }

  /** The six-bit groups of a byte string, the last one filled up with zero bits. */
  function Sextets(bytes: seq<Byte>): seq<Sextet> {
    if bytes == [] then []
    else if |bytes| == 1 then [bytes[0] / 4, bytes[0] % 4 * 16]
    else if |bytes| == 2 then [bytes[0] / 4, bytes[0] % 4 * 16 + bytes[1] / 16, bytes[1] % 16 * 4]
    else Group(bytes[0], bytes[1], bytes[2]) + Sextets(bytes[3..])
  }

  /** Three bytes as four six-bit groups. */
  function Group(a: Byte, b: Byte, c: Byte): (group: seq<Sextet>)
    ensures |group| == 4
  {
    [a / 4, a % 4 * 16 + b / 16, b % 16 * 4 + c / 64, c % 64]
  }

  function Padding(length: nat): string {
    if length % 3 == 1 then "==" else if length % 3 == 2 then "=" else ""
  }

  /** `base64.b64encode` */
  function Encode64(bytes: seq<Byte>): string {
    Map(Digit64, Sextets(bytes)) + Padding(|bytes|)
  }

  /** How many leading characters are base64 digits. */
  function DigitCount(text: string): (n: nat)
    ensures n <= |text|
    ensures forall i :: 0 <= i < n ==> Value64(text[i]).Some?
    ensures n < |text| ==> Value64(text[n]).None?
  {
    if text == [] || Value64(text[0]).None? then 0 else 1 + DigitCount(text[1..])
  }

  function FirstByte(a: Sextet, b: Sextet): Byte {
    a as int * 4 + b as int / 16
  }

  function SecondByte(b: Sextet, c: Sextet): Byte {
    b as int % 16 * 16 + c as int / 4
  }

  function ThirdByte(c: Sextet, d: Sextet): Byte {
    c as int % 4 * 64 + d as int
  }

  /** Bytes of six-bit groups; left-over bits of an incomplete byte are dropped. */
  function BytesOf(v: seq<Sextet>): seq<Byte> {
    if |v| < 2 then []
    else if |v| == 2 then [FirstByte(v[0], v[1])]
    else if |v| == 3 then [FirstByte(v[0], v[1]), SecondByte(v[1], v[2])]
    else [FirstByte(v[0], v[1]), SecondByte(v[1], v[2]), ThirdByte(v[2], v[3])] + BytesOf(v[4..])
  }

  /** Padding after `n` digits: none may lead, and an incomplete group of four is filled exactly. */
  predicate PaddingFits(n: nat, padding: string) {
    && (forall i :: 0 <= i < |padding| ==> padding[i] == '=')
    && match n % 4
       case 0 => n == 0 ==> padding == []
       case 1 => false
       case 2 => |padding| == 2
       case _ => |padding| == 1
  }

  /** `base64.b64decode(text, validate=True)`; `None` for `binascii.Error`. */
  function Decode64(text: string): Option<seq<Byte>> {
    var n := DigitCount(text);
    if !PaddingFits(n, text[n..]) then None
    else Some(BytesOf(seq(n, i requires 0 <= i < n => Value64(text[i]).value)))
  }

  lemma DigitsReadBack(v: Sextet)
    ensures Value64(Digit64(v)) == Some(v)
    ensures Digit64(v) != '$' && Digit64(v) != '='
  {}

  lemma ThreeBytes(a: Byte, b: Byte, c: Byte)
    ensures FirstByte(a / 4, a % 4 * 16 + b / 16) == a
    ensures SecondByte(a % 4 * 16 + b / 16, b % 16 * 4 + c / 64) == b
    ensures ThirdByte(b % 16 * 4 + c / 64, c % 64) == c
  {}

  lemma GroupReadsBack(a: Byte, b: Byte, c: Byte, rest: seq<Sextet>)
    ensures BytesOf(Group(a, b, c) + rest) == [a, b, c] + BytesOf(rest)
  {
    var v := Group(a, b, c) + rest;
    ThreeBytes(a, b, c);
    assert v[4..] == rest;
    assert v[0] == a / 4 && v[3] == c % 64;
  }

  lemma {:induction false} SextetsReadBack(bytes: seq<Byte>)
    ensures BytesOf(Sextets(bytes)) == bytes
  {
    if |bytes| >= 3 {
      SextetsReadBack(bytes[3..]);
      GroupReadsBack(bytes[0], bytes[1], bytes[2], Sextets(bytes[3..]));
      assert Sextets(bytes) == Group(bytes[0], bytes[1], bytes[2]) + Sextets(bytes[3..]);
      assert bytes == [bytes[0], bytes[1], bytes[2]] + bytes[3..];
    } else if |bytes| == 2 {
      ThreeBytes(bytes[0], bytes[1], 0);
    } else if |bytes| == 1 {
      ThreeBytes(bytes[0], 0, 0);
    }
  }

  lemma {:induction false} SextetsLength(bytes: seq<Byte>)
    ensures |Sextets(bytes)| % 4 == (if |bytes| % 3 == 0 then 0 else |bytes| % 3 + 1)
  {
    if |bytes| >= 3 {
      SextetsLength(bytes[3..]);
      assert |Sextets(bytes)| == 4 + |Sextets(bytes[3..])|;
    }
  }

  lemma {:induction false} DigitCountOf(digits: string, rest: string)
    requires forall i :: 0 <= i < |digits| ==> Value64(digits[i]).Some?
    requires rest == [] || Value64(rest[0]).None?
    ensures DigitCount(digits + rest) == |digits|
  {
    var text := digits + rest;
    if digits == [] {
      assert text == rest;
    } else {
      DigitCountOf(digits[1..], rest);
      assert text[1..] == digits[1..] + rest;
    }
  }

  lemma EncodedDigits(bytes: seq<Byte>)
    ensures |Map(Digit64, Sextets(bytes))| == |Sextets(bytes)|
    ensures forall i :: 0 <= i < |Sextets(bytes)| ==>
              Value64(Map(Digit64, Sextets(bytes))[i]) == Some(Sextets(bytes)[i])
                  && Map(Digit64, Sextets(bytes))[i] != '$'
  {
    forall i | 0 <= i < |Sextets(bytes)|
      ensures Value64(Digit64(Sextets(bytes)[i])) == Some(Sextets(bytes)[i]) && Digit64(Sextets(bytes)[i]) != '$' {
      DigitsReadBack(Sextets(bytes)[i]);
    }
  }

  lemma PaddingIsRight(bytes: seq<Byte>)
    ensures PaddingFits(|Sextets(bytes)|, Padding(|bytes|))
  {
    SextetsLength(bytes);
    assert bytes != [] ==> |Sextets(bytes)| > 0;
  }

  /** Digits followed by fitting padding decode to the bytes of the digits' values. */
  lemma DigitsDecode(digits: string, values: seq<Sextet>, padding: string)
    requires |digits| == |values| && forall i :: 0 <= i < |digits| ==> Value64(digits[i]) == Some(values[i])
    requires PaddingFits(|digits|, padding)
    ensures Decode64(digits + padding) == Some(BytesOf(values))
  {
    var text, n := digits + padding, |digits|;
    DigitCountOf(digits, padding);
    assert text[n..] == padding;
    var read := seq(n, i requires 0 <= i < n => Value64(text[i]).value);
    assert read == values by {
      assert forall i :: 0 <= i < n ==> text[i] == digits[i];
    }
  }

  /** Every byte string survives encoding and decoding. */
  lemma Base64RoundTrip(bytes: seq<Byte>)
    ensures Decode64(Encode64(bytes)) == Some(bytes)
    ensures '$' !in Encode64(bytes)
  {
    EncodedDigits(bytes);
    PaddingIsRight(bytes);
    DigitsDecode(Map(Digit64, Sextets(bytes)), Sextets(bytes), Padding(|bytes|));
    SextetsReadBack(bytes);
  }

  // ------------------------------------------------- which base64 is printed back

  /** The bits after the last whole byte are zero. */
  predicate NothingLeftOver(v: seq<Sextet>) {
    && (|v| % 4 == 2 ==> v[|v| - 1] as int % 16 == 0)
    && (|v| % 4 == 3 ==> v[|v| - 1] as int % 4 == 0)
  }

  lemma FirstSextet(a: Sextet, b: Sextet)
    ensures FirstByte(a, b) / 4 == a && FirstByte(a, b) % 4 == b as int / 16
  {}

  lemma SecondSextet(b: Sextet, c: Sextet)
    ensures SecondByte(b, c) / 16 == b as int % 16 && SecondByte(b, c) % 16 == c as int / 4
  {}

  lemma ThirdSextet(c: Sextet, d: Sextet)
    ensures ThirdByte(c, d) / 64 == c as int % 4 && ThirdByte(c, d) % 64 == d
  {}

  lemma FourSextets(a: Sextet, b: Sextet, c: Sextet, d: Sextet)
    ensures Group(FirstByte(a, b), SecondByte(b, c), ThirdByte(c, d)) == [a, b, c, d]
  {
    FirstSextet(a, b);
    SecondSextet(b, c);
    ThirdSextet(c, d);
    assert b as int / 16 * 16 + b as int % 16 == b;
    assert c as int / 4 * 4 + c as int % 4 == c;
  }

  lemma TwoSextets(a: Sextet, b: Sextet)
    ensures Sextets(BytesOf([a, b])) == [a, b as int - b as int % 16]
  {
    FirstSextet(a, b);
    assert BytesOf([a, b]) == [FirstByte(a, b)];
    assert b as int / 16 * 16 + b as int % 16 == b;
  }

  lemma ThreeSextets(a: Sextet, b: Sextet, c: Sextet)
    ensures Sextets(BytesOf([a, b, c])) == [a, b, c as int - c as int % 4]
  {
    FirstSextet(a, b);
    SecondSextet(b, c);
    assert BytesOf([a, b, c]) == [FirstByte(a, b), SecondByte(b, c)];
    assert b as int / 16 * 16 + b as int % 16 == b;
    assert c as int / 4 * 4 + c as int % 4 == c;
  }

  /** Fewer than four groups: the last one loses the bits that fill no byte. */
  lemma ShortReadBack(v: seq<Sextet>)
    requires |v| < 4 && |v| != 1
    ensures |Sextets(BytesOf(v))| == |v| && |BytesOf(v)| == if v == [] then 0 else |v| - 1
    ensures Sextets(BytesOf(v)) == v <==> NothingLeftOver(v)
  {
    if |v| == 3 {
      ThreeSextets(v[0], v[1], v[2]);
      assert v == [v[0], v[1], v[2]];
    } else if |v| == 2 {
      TwoSextets(v[0], v[1]);
      assert v == [v[0], v[1]];
    }
  }

  lemma GroupsReadBack(v: seq<Sextet>)
    requires |v| >= 4
    ensures Sextets(BytesOf(v)) == v[..4] + Sextets(BytesOf(v[4..]))
    ensures |BytesOf(v)| == 3 + |BytesOf(v[4..])|
  {
    var rest := BytesOf(v[4..]);
    var a, b, c := FirstByte(v[0], v[1]), SecondByte(v[1], v[2]), ThirdByte(v[2], v[3]);
    FourSextets(v[0], v[1], v[2], v[3]);
    GroupComesFirst(a, b, c, rest);
    assert BytesOf(v) == [a, b, c] + rest;
    assert v[..4] == [v[0], v[1], v[2], v[3]];
  }

  lemma GroupComesFirst(a: Byte, b: Byte, c: Byte, rest: seq<Byte>)
    ensures Sextets([a, b, c] + rest) == Group(a, b, c) + Sextets(rest)
  {
    assert ([a, b, c] + rest)[3..] == rest;
  }

  lemma LeftOverAtTheEnd(v: seq<Sextet>)
    requires |v| >= 4
    ensures NothingLeftOver(v) <==> NothingLeftOver(v[4..])
  {
    assert |v[4..]| % 4 == |v| % 4;
    assert |v| > 4 ==> v[4..][|v| - 5] == v[|v| - 1];
  }

  lemma {:induction false} GroupCount(v: seq<Sextet>)
    requires |v| % 4 != 1
    ensures |Sextets(BytesOf(v))| == |v|
    ensures |BytesOf(v)| == |v| / 4 * 3 + if |v| % 4 == 0 then 0 else |v| % 4 - 1
  {
    if |v| >= 4 {
      var rest := v[4..];
      assert |rest| / 4 == |v| / 4 - 1 && |rest| % 4 == |v| % 4;
      GroupCount(rest);
      GroupsReadBack(v);
    } else {
      ShortReadBack(v);
    }
  }

  lemma BytesLength(v: seq<Sextet>)
    requires |v| % 4 != 1
    ensures |Sextets(BytesOf(v))| == |v|
    ensures |BytesOf(v)| % 3 == (if |v| % 4 == 0 then 0 else |v| % 4 - 1)
  {
    GroupCount(v);
    ThirdsLeftOver(|v| / 4, if |v| % 4 == 0 then 0 else |v| % 4 - 1);
  }

  lemma ThirdsLeftOver(groups: nat, rest: nat)
    requires rest < 3
    ensures (groups * 3 + rest) % 3 == rest
  {}

  lemma {:induction false} BytesReadBack(v: seq<Sextet>)
    requires |v| % 4 != 1
    ensures Sextets(BytesOf(v)) == v <==> NothingLeftOver(v)
  {
    if |v| >= 4 {
      assert |v[4..]| % 4 == |v| % 4;
      BytesReadBack(v[4..]);
      GroupsReadBack(v);
      LeftOverAtTheEnd(v);
      SamePrefix(v, Sextets(BytesOf(v[4..])));
    } else {
      ShortReadBack(v);
    }
  }

  lemma SamePrefix<T>(v: seq<T>, rest: seq<T>)
    requires |v| >= 4
    ensures v[..4] + rest == v <==> rest == v[4..]
  {
    assert (v[..4] + rest)[4..] == rest && v == v[..4] + v[4..];
  }

  /** No left-over bits, and no padding after complete groups. */
  predicate PlainBase64(text: string) {
    var n := DigitCount(text);
    && (n % 4 == 0 ==> n == |text|)
    && NothingLeftOver(seq(n, i requires 0 <= i < n => Value64(text[i]).value))
  }

  lemma ValueReadsBack(c: char)
    requires Value64(c).Some?
    ensures Digit64(Value64(c).value) == c
  {}

  /** Base64 is printed as it was read exactly when it was spelled plainly. */
  lemma PlainBase64Iff(text: string)
    requires Decode64(text).Some?
    ensures Encode64(Decode64(text).value) == text <==> PlainBase64(text)
  {
    var n := DigitCount(text);
    var v: seq<Sextet> := seq(n, i requires 0 <= i < n => Value64(text[i]).value);
    var bytes := BytesOf(v);
    BytesLength(v);
    BytesReadBack(v);
    EncodedDigits(bytes);
    forall i | 0 <= i < n ensures Digit64(v[i]) == text[i] {
      ValueReadsBack(text[i]);
    }
    assert text == text[..n] + text[n..];
    if Encode64(bytes) == text {
      SameDigitsSameValues(Sextets(bytes), v, Padding(|bytes|), text);
    }
    if PlainBase64(text) {
      assert Map(Digit64, v) == text[..n];
      PaddingIsForced(n, |bytes|, text[n..]);
    }
  }

  lemma SameDigitsSameValues(a: seq<Sextet>, b: seq<Sextet>, padding: string, text: string)
    requires |a| == |b| <= |text| && Map(Digit64, a) + padding == text
    requires forall i :: 0 <= i < |b| ==> Digit64(b[i]) == text[i]
    ensures a == b && |text| == |a| + |padding|
  {
    forall i | 0 <= i < |a| ensures a[i] == b[i] {
      assert (Map(Digit64, a) + padding)[i] == Digit64(a[i]);
      DigitsReadBack(a[i]);
      DigitsReadBack(b[i]);
    }
  }

  lemma PaddingIsForced(n: nat, length: nat, padding: string)
    requires PaddingFits(n, padding) && (n % 4 == 0 ==> padding == [])
    requires length % 3 == (if n % 4 == 0 then 0 else n % 4 - 1)
    ensures padding == Padding(length)
  {}

  // ------------------------------------------------------- the stored password

  const SCHEME := "scrypt"

  datatype Stored = Stored(n: int, r: int, p: int, salt: seq<Byte>, digest: seq<Byte>)

  function Fields(stored: Stored): seq<string> {
    [SCHEME, PrintInt(stored.n), PrintInt(stored.r), PrintInt(stored.p), Encode64(stored.salt), Encode64(stored.digest)]
  }

  function Print(stored: Stored): string {
    Join("$", Fields(stored))
  }

  function ParseFields(fields: seq<string>): Option<Stored> {
    if |fields| != 6 || fields[0] != SCHEME then None
    else
      var expected, salt := Decode64(fields[5]), Decode64(fields[4]);
      var n, r, p := ParseInt(fields[1]), ParseInt(fields[2]), ParseInt(fields[3]);
      if expected.None? || salt.None? || n.None? || r.None? || p.None? then None
      else Some(Stored(n.value, r.value, p.value, salt.value, expected.value))
  }

  /** What `verify` reads out of the text before it derives anything. */
  function Parse(encoded: string): Option<Stored> {
    ParseFields(SplitOn('$', encoded))
  }

  /** `_derive` on password, salt, n, r, p and length; `None` when it raises. */
  type Derivation = (string, seq<Byte>, int, int, int, nat) -> Option<seq<Byte>>

  /** A derived digest has the length asked for. */
  ghost predicate RightLength(derive: Derivation) {
    forall password, salt, n, r, p, length ::
      derive(password, salt, n, r, p, length).Some? ==> |derive(password, salt, n, r, p, length).value| == length
  }

  function Verify(derive: Derivation, password: string, encoded: string): bool {
    var parsed := Parse(encoded);
    if parsed.None? then false
    else
      var s := parsed.value;
      derive(password, s.salt, s.n, s.r, s.p, |s.digest|) == Some(s.digest)
  }

  datatype PasswordHasher = PasswordHasher(n: int, r: int, p: int, dklen: nat)
  {
    /** `hash`, given the salt it draws; `None` when the derivation raises. */
    function Hash(derive: Derivation, password: string, salt: seq<Byte>): Option<string> {
      var digest := derive(password, salt, n, r, p, dklen);
      if digest.None? then None else Some(Print(Stored(n, r, p, salt, digest.value)))
    }
  }

  lemma SixFieldsSplit(a: string, b: string, c: string, d: string, e: string, f: string)
    requires '$' !in a && '$' !in b && '$' !in c && '$' !in d && '$' !in e && '$' !in f
    ensures SplitOn('$', Join("$", [a, b, c, d, e, f])) == [a, b, c, d, e, f]
  {
    SplitJoin('$', [a, b, c, d, e, f]);
  }

  lemma FieldsReadBack(stored: Stored)
    ensures ParseFields(Fields(stored)) == Some(stored)
  {
    IntegersReadBack(stored.n);
    IntegersReadBack(stored.r);
    IntegersReadBack(stored.p);
    Base64RoundTrip(stored.salt);
    Base64RoundTrip(stored.digest);
  }

  lemma FieldsSplit(stored: Stored)
    ensures SplitOn('$', Print(stored)) == Fields(stored)
  {
    IntegersReadBack(stored.n);
    IntegersReadBack(stored.r);
    IntegersReadBack(stored.p);
    Base64RoundTrip(stored.salt);
    Base64RoundTrip(stored.digest);
    assert '$' !in SCHEME;
    SixFieldsSplit(SCHEME, PrintInt(stored.n), PrintInt(stored.r), PrintInt(stored.p),
                   Encode64(stored.salt), Encode64(stored.digest));
  }

  /** The text splits into exactly the six fields, and each reads back as printed. */
  lemma ParsePrint(stored: Stored)
    ensures SplitOn('$', Print(stored)) == Fields(stored)
    ensures Parse(Print(stored)) == Some(stored)
  {
    FieldsSplit(stored);
    FieldsReadBack(stored);
  }

  /** The text itself: the scheme, then n, r, p, salt and digest, with a dollar sign before each. */
  lemma TextLaidOut(stored: Stored)
    ensures Print(stored) == "scrypt" + "$" + PrintInt(stored.n) + "$" + PrintInt(stored.r) + "$" + PrintInt(stored.p)
                             + "$" + Encode64(stored.salt) + "$" + Encode64(stored.digest)
  {
    JoinOfSix(SCHEME, PrintInt(stored.n), PrintInt(stored.r), PrintInt(stored.p), Encode64(stored.salt),
              Encode64(stored.digest));
  }

  lemma JoinOfSix(a: string, b: string, c: string, d: string, e: string, f: string)
    ensures Join("$", [a, b, c, d, e, f]) == a + "$" + b + "$" + c + "$" + d + "$" + e + "$" + f
  {
    assert [a, b, c, d, e, f][1..] == [b, c, d, e, f] && [b, c, d, e, f][1..] == [c, d, e, f];
    assert [c, d, e, f][1..] == [d, e, f] && [d, e, f][1..] == [e, f] && [e, f][1..] == [f];
    assert Join("$", [e, f]) == e + "$" + f;
    assert Join("$", [d, e, f]) == d + "$" + (e + "$" + f);
    assert Join("$", [c, d, e, f]) == c + "$" + (d + "$" + (e + "$" + f));
  }

  /** The ends of the alphabet's runs, in table 1 of RFC 4648. */
  lemma AlphabetEnds()
    ensures Digit64(0) == 'A' && Digit64(25) == 'Z' && Digit64(26) == 'a' && Digit64(51) == 'z'
    ensures Digit64(52) == '0' && Digit64(61) == '9' && Digit64(62) == '+' && Digit64(63) == '/'
  {}

  /** Test vectors of section 10 of RFC 4648: the bytes of "f", "fo" and "foo". */
  lemma KnownVectors()
    ensures Encode64([102]) == "Zg==" && Encode64([102, 111]) == "Zm8=" && Encode64([102, 111, 111]) == "Zm9v"
  {
    assert Sextets([102]) == [25, 32] && Sextets([102, 111]) == [25, 38, 60];
    assert [102, 111, 111][3..] == [];
    assert Sextets([102, 111, 111]) == [25, 38, 61, 47];
    assert Digit64(25) == 'Z' && Digit64(32) == 'g' && Digit64(38) == 'm' && Digit64(60) == '8';
    assert Digit64(61) == '9' && Digit64(47) == 'v';
    assert Map(Digit64, [25, 32]) == "Zg" && Map(Digit64, [25, 38, 60]) == "Zm8";
    assert Map(Digit64, [25, 38, 61, 47]) == "Zm9v";
  }

  /** Two stored passwords with the same text are the same. */
  lemma PrintIsInjective(a: Stored, b: Stored)
    requires Print(a) == Print(b)
    ensures a == b
  {
    ParsePrint(a);
    ParsePrint(b);
  }

  /**
   Whatever parameters hashed a password, and whatever hasher verifies it: the text carries
   everything needed, and a password is accepted exactly when it derives the same digest.
   */
  lemma VerifyAcceptsSameDigest(h: PasswordHasher, derive: Derivation, password: string, salt: seq<Byte>,
                                attempt: string)
    requires RightLength(derive) && h.Hash(derive, password, salt).Some?
    ensures Verify(derive, attempt, h.Hash(derive, password, salt).value)
            <==> derive(attempt, salt, h.n, h.r, h.p, h.dklen) == derive(password, salt, h.n, h.r, h.p, h.dklen)
  {
    ParsePrint(Stored(h.n, h.r, h.p, salt, derive(password, salt, h.n, h.r, h.p, h.dklen).value));
  }

  /** Some field separator is missing or extra: the text is refused, not misread. */
  lemma WrongFieldCountIsRefused(derive: Derivation, password: string, fields: seq<string>)
    requires fields != [] && |fields| != 6
    requires forall i :: 0 <= i < |fields| ==> '$' !in fields[i]
    ensures !Verify(derive, password, Join("$", fields))
  {
    SplitJoin('$', fields);
  }

  /** A text of six fields stores a password exactly when its fields read as the password's values. */
  lemma FieldsRead(stored: Stored, n: string, r: string, p: string, salt: string, digest: string)
    requires '$' !in n && '$' !in r && '$' !in p && '$' !in salt && '$' !in digest
    ensures Parse(Join("$", [SCHEME, n, r, p, salt, digest])) == Some(stored)
            <==> && ParseInt(n) == Some(stored.n) && ParseInt(r) == Some(stored.r) && ParseInt(p) == Some(stored.p)
                 && Decode64(salt) == Some(stored.salt) && Decode64(digest) == Some(stored.digest)
  {
    assert '$' !in SCHEME;
    SixFieldsSplit(SCHEME, n, r, p, salt, digest);
  }

  /** Six fields, the numbers in plain decimals and the rest in plain base64. */
  predicate PlainFields(fields: seq<string>) {
    && |fields| == 6
    && PlainInt(fields[1]) && PlainInt(fields[2]) && PlainInt(fields[3])
    && PlainBase64(fields[4]) && PlainBase64(fields[5])
  }

  lemma SameFields(stored: Stored, fields: seq<string>)
    requires |fields| == 6 && fields[0] == SCHEME
    ensures Fields(stored) == fields
            <==> && PrintInt(stored.n) == fields[1] && PrintInt(stored.r) == fields[2]
                 && PrintInt(stored.p) == fields[3]
                 && Encode64(stored.salt) == fields[4] && Encode64(stored.digest) == fields[5]
  {}

  lemma PlainFieldsIff(fields: seq<string>)
    requires ParseFields(fields).Some?
    ensures Fields(ParseFields(fields).value) == fields <==> PlainFields(fields)
  {
    SameFields(ParseFields(fields).value, fields);
    PlainIntIff(fields[1]);
    PlainIntIff(fields[2]);
    PlainIntIff(fields[3]);
    PlainBase64Iff(fields[4]);
    PlainBase64Iff(fields[5]);
  }

  /**
   Reading is more generous than printing. Of all texts that are read, printing gives back
   exactly those whose number fields are an optional minus and digits, with no leading zero
   and no negative zero, and whose base64 fields leave no bits over and carry no padding
   after complete groups. Every other text that is read is a second spelling of its password.
   */
  lemma PrintsBackIff(text: string)
    requires Parse(text).Some?
    ensures Print(Parse(text).value) == text <==> PlainFields(SplitOn('$', text))
  {
    var stored := Parse(text).value;
    JoinSplit('$', text);
    FieldsSplit(stored);
    PlainFieldsIff(SplitOn('$', text));
  }

  /** The printed text with a space and a plus sign before its first number. */
  function WithSpacedNumber(stored: Stored): string {
    Join("$", [SCHEME, " +" + PrintInt(stored.n), PrintInt(stored.r), PrintInt(stored.p), Encode64(stored.salt),
               Encode64(stored.digest)])
  }

  /** Concretely: two different texts of one stored password. */
  lemma SpacedNumberIsAccepted(stored: Stored)
    requires stored.n >= 0
    ensures Parse(WithSpacedNumber(stored)) == Some(stored) && WithSpacedNumber(stored) != Print(stored)
  {
    var n := " +" + PrintInt(stored.n);
    SpacedNumberReads(stored.n);
    IntegersReadBack(stored.r);
    IntegersReadBack(stored.p);
    Base64RoundTrip(stored.salt);
    Base64RoundTrip(stored.digest);
    FieldsRead(stored, n, PrintInt(stored.r), PrintInt(stored.p), Encode64(stored.salt), Encode64(stored.digest));
    SixFieldsSplit(SCHEME, n, PrintInt(stored.r), PrintInt(stored.p), Encode64(stored.salt),
                   Encode64(stored.digest));
    FieldsSplit(stored);
  }

  lemma SpacedNumberReads(n: nat)
    ensures ParseInt(" +" + PrintInt(n)) == Some(n)
    ensures " +" + PrintInt(n) != PrintInt(n) && '$' !in " +" + PrintInt(n)
  {
    NaturalsReadBack(n);
    IntegersReadBack(n);
    SpacedSign(PrintNat(n));
  }

  lemma SpacedSign(digits: string)
    requires digits != [] && IsDigit(digits[|digits| - 1])
    ensures ParseInt(" +" + digits) == Signed(false, ParseDigits(digits))
  {
    var body := "+" + digits;
    assert (" +" + digits)[1..] == body && body[1..] == digits;
    assert body[|body| - 1] == digits[|digits| - 1];
    assert Trim(body) == body;
  }
}
