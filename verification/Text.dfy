/** Python's `strip`, `in`, `split` and `join` on strings, and its decimal numbers. */
module Text {
  import opened Prelude

  /** `str.isspace` of one character. */
  predicate IsSpace(c: char) {
    var n := c as int;
    || 0x09 <= n <= 0x0D
    || 0x1C <= n <= 0x20
    || n in {0x85, 0xA0, 0x1680, 0x2028, 0x2029, 0x202F, 0x205F, 0x3000}
    || 0x2000 <= n <= 0x200A
  }

  function StripLeft(s: string): string {
    if s != [] && IsSpace(s[0]) then StripLeft(s[1..]) else s
  }

  function StripRight(s: string): string {
    if s != [] && IsSpace(s[|s| - 1]) then StripRight(s[..|s| - 1]) else s
  }

  function Strip(s: string): string {
    StripRight(StripLeft(s))
  }

  /** Some character is no whitespace. */
  predicate HasText(s: string) {
    exists i :: 0 <= i < |s| && !IsSpace(s[i])
  }

  lemma {:induction false} StripRightEmptyIff(s: string)
    ensures StripRight(s) == "" <==> !HasText(s)
  {
    if s != [] {
      var n := |s| - 1;
      StripRightEmptyIff(s[..n]);
      if i :| 0 <= i < n && !IsSpace(s[i]) {
        assert !IsSpace(s[..n][i]);
      }
    }
  }

  lemma {:induction false} StripEmptyIff(s: string)
    ensures Strip(s) == "" <==> !HasText(s)
  {
    if s != [] && IsSpace(s[0]) {
      StripEmptyIff(s[1..]);
      if i :| 0 <= i < |s| && !IsSpace(s[i]) {
        assert !IsSpace(s[1..][i - 1]);
      }
    } else {
      StripRightEmptyIff(s);
    }
  }

  predicate AllSpace(s: string) {
    forall i :: 0 <= i < |s| ==> IsSpace(s[i])
  }

  lemma {:induction false} StripLeftOf(pad: string, s: string)
    requires AllSpace(pad)
    ensures StripLeft(pad + s) == StripLeft(s)
  {
    if pad == [] {
      assert pad + s == s;
    } else {
      StripLeftOf(pad[1..], s);
      assert (pad + s)[1..] == pad[1..] + s;
    }
  }

  lemma {:induction false} StripRightOf(s: string, pad: string)
    requires AllSpace(pad)
    ensures StripRight(s + pad) == StripRight(s)
  {
    if pad == [] {
      assert s + pad == s;
    } else {
      var n := |pad| - 1;
      StripRightOf(s, pad[..n]);
      var text := s + pad;
      assert text[|text| - 1] == pad[n] && IsSpace(pad[n]);
      assert text[..|text| - 1] == s + pad[..n];
    }
  }

  /** Stripping takes whitespace off both ends and nothing else. */
  lemma StripTakesSpaceOff(left: string, s: string, right: string)
    requires AllSpace(left) && AllSpace(right)
    requires s != [] ==> !IsSpace(s[0]) && !IsSpace(s[|s| - 1])
    ensures Strip(left + s + right) == s
  {
    assert left + s + right == left + (s + right);
    StripLeftOf(left, s + right);
    if s == [] {
      assert s + right == right + [];
      StripLeftOf(right, []);
    } else {
      StripRightOf(s, right);
    }
  }

  /** The text holds the part exactly when it has something, or nothing, before and after it. */
  lemma ContainsIff(text: string, part: string)
    ensures Contains(text, part) <==> exists before, after :: text == before + part + after
  {
    if Contains(text, part) {
      var i :| 0 <= i <= |text| && OccursAt(text, part, i);
      assert text == text[..i] + part + text[i..][|part|..];
    }
    if before, after :| text == before + part + after {
      assert text[|before|..] == part + after;
      assert OccursAt(text, part, |before|);
    }
  }

  predicate Contains(text: string, part: string) {
    exists i :: 0 <= i <= |text| && OccursAt(text, part, i)
  }

  predicate OccursAt(text: string, part: string, i: nat)
    requires i <= |text|
  {
    StartsWith(text[i..], part)
  }

  predicate StartsWith(text: string, prefix: string) {
    |prefix| <= |text| && text[..|prefix|] == prefix
  }

  /** `sep.join(parts)` */
  function Join(sep: string, parts: seq<string>): string {
    if parts == [] then ""
    else if |parts| == 1 then parts[0]
    else parts[0] + sep + Join(sep, parts[1..])
  }

  /** `text.split(sep)` for a one-character separator. */
  function SplitOn(sep: char, text: string): (parts: seq<string>)
    ensures |parts| >= 1
  {
    if text == [] then [""]
    else
      var rest := SplitOn(sep, text[1..]);
      if text[0] == sep then [""] + rest
      else [[text[0]] + rest[0]] + rest[1..]
  }

  lemma {:induction false} SplitPiece(sep: char, head: string, tail: string)
    requires sep !in head
    ensures SplitOn(sep, head + [sep] + tail) == [head] + SplitOn(sep, tail)
  {
    var text := head + [sep] + tail;
    if head == [] {
      assert text[1..] == tail;
    } else {
      SplitPiece(sep, head[1..], tail);
      assert text[1..] == head[1..] + [sep] + tail;
      assert [head[0]] + head[1..] == head;
    }
  }

  lemma {:induction false} SplitWhole(sep: char, text: string)
    requires sep !in text
    ensures SplitOn(sep, text) == [text]
  {
    if text != [] {
      SplitWhole(sep, text[1..]);
      assert [text[0]] + text[1..] == text;
    }
  }

  /** Splitting undoes joining when no part holds the separator. */
  lemma {:induction false} SplitJoin(sep: char, parts: seq<string>)
    requires parts != []
    requires forall i :: 0 <= i < |parts| ==> sep !in parts[i]
    ensures SplitOn(sep, Join([sep], parts)) == parts
  {
    if |parts| == 1 {
      SplitWhole(sep, parts[0]);
    } else {
      SplitJoin(sep, parts[1..]);
      SplitPiece(sep, parts[0], Join([sep], parts[1..]));
      assert parts == [parts[0]] + parts[1..];
    }
  }

  /** Joining undoes splitting. */
  lemma {:induction false} JoinSplit(sep: char, text: string)
    ensures Join([sep], SplitOn(sep, text)) == text
    ensures forall part :: part in SplitOn(sep, text) ==> sep !in part
  {
    if text != [] {
      JoinSplit(sep, text[1..]);
      var rest := SplitOn(sep, text[1..]);
      if text[0] == sep {
        assert ([""] + rest)[1..] == rest;
        assert text == [sep] + text[1..];
      } else {
        assert ([[text[0]] + rest[0]] + rest[1..])[1..] == rest[1..];
        assert text == [text[0]] + text[1..];
      }
    }
  }

  // -------------------------------------------------- words (`text.split()`)

  /** The length of the longest prefix without whitespace. */
  function WordLength(s: string): (n: nat)
    ensures n <= |s|
    ensures forall i :: 0 <= i < n ==> !IsSpace(s[i])
    ensures n < |s| ==> IsSpace(s[n])
  {
    if s == [] || IsSpace(s[0]) then 0 else 1 + WordLength(s[1..])
  }

  /** `text.split()`: the maximal runs of non-whitespace characters. */
  function Words(s: string): seq<string>
    decreases |s|
  {
    if s == [] then []
    else if IsSpace(s[0]) then Words(s[1..])
    else
      var n := WordLength(s);
      [s[..n]] + Words(s[n..])
  }

  predicate IsWord(w: string) {
    w != [] && forall i :: 0 <= i < |w| ==> !IsSpace(w[i])
  }

  lemma {:induction false} WordsAreWords(s: string)
    ensures forall i :: 0 <= i < |Words(s)| ==> IsWord(Words(s)[i])
    decreases |s|
  {
    if s != [] {
      if IsSpace(s[0]) {
        WordsAreWords(s[1..]);
      } else {
        WordsAreWords(s[WordLength(s)..]);
      }
    }
  }

  lemma WordThenSpace(w: string, rest: string)
    requires IsWord(w)
    requires rest == [] || IsSpace(rest[0])
    ensures WordLength(w + rest) == |w|
    ensures Words(w + rest) == [w] + Words(rest)
  {
    var s := w + rest;
    assert s[..|w|] == w && s[|w|..] == rest;
    assert forall i :: 0 <= i < |w| ==> s[i] == w[i];
    assert rest != [] ==> s[|w|] == rest[0];
  }

  /** Splitting into words undoes joining words with single spaces. */
  lemma {:induction false} WordsOfJoin(ws: seq<string>)
    requires forall i :: 0 <= i < |ws| ==> IsWord(ws[i])
    ensures Words(Join(" ", ws)) == ws
  {
    if |ws| == 1 {
      WordThenSpace(ws[0], []);
      assert ws[0] + [] == ws[0];
    } else if |ws| > 1 {
      WordsOfJoin(ws[1..]);
      var rest := " " + Join(" ", ws[1..]);
      assert rest[1..] == Join(" ", ws[1..]);
      WordThenSpace(ws[0], rest);
      assert Join(" ", ws) == ws[0] + rest;
    }
  }

  // ------------------------------------------------------------------ decimals

  function Digit10(v: int): char
    requires 0 <= v < 10
  {
    ('0' as int + v) as char
  }

  predicate IsDigit(c: char) {
    '0' <= c <= '9'
  }

  function PrintNat(n: nat): string {
    if n < 10 then [Digit10(n)] else PrintNat(n / 10) + [Digit10(n % 10)]
  }

  /** `f"{n}"` */
  function PrintInt(n: int): string {
    if n < 0 then "-" + PrintNat(-n) else PrintNat(n)
  }

  /** Digits with single underscores between them, as `int` accepts them. */
  function ParseDigits(text: string): Option<nat> {
    if text == [] || !IsDigit(text[|text| - 1]) then None
    else
      var n := |text| - 1;
      var last := text[n] as int - '0' as int;
      if n == 0 then Some(last)
      else
        var before := ParseDigits(if text[n - 1] == '_' then text[..n - 1] else text[..n]);
        if before.None? then None else Some(before.value * 10 + last)
  }

  function Signed(negative: bool, n: Option<nat>): Option<int> {
    if n.None? then None else Some(if negative then -(n.value as int) else n.value as int)
  }

  function ParseSigned(body: string): Option<int> {
    if body == [] then None
    else if body[0] == '-' then Signed(true, ParseDigits(body[1..]))
    else if body[0] == '+' then Signed(false, ParseDigits(body[1..]))
    else Signed(false, ParseDigits(body))
  }

  predicate IsAsciiSpace(c: char) {
    '\t' <= c <= '\r' || c == ' '
  }

  function Trim(text: string): string {
    if text != [] && IsAsciiSpace(text[0]) then Trim(text[1..])
    else if text != [] && IsAsciiSpace(text[|text| - 1]) then Trim(text[..|text| - 1])
    else text
  }

  /** `int(text)` of an ASCII text; `None` for `ValueError`. */
  function ParseInt(text: string): Option<int> {
    ParseSigned(Trim(text))
  }

  lemma {:induction false} NaturalsReadBack(n: nat)
    ensures PrintNat(n) != [] && forall i :: 0 <= i < |PrintNat(n)| ==> IsDigit(PrintNat(n)[i])
    ensures ParseDigits(PrintNat(n)) == Some(n)
  {
    if n >= 10 {
      NaturalsReadBack(n / 10);
      var text := PrintNat(n);
      assert text[..|text| - 1] == PrintNat(n / 10);
      assert text[|text| - 2] == PrintNat(n / 10)[|text| - 2];
    }
  }

  lemma SignedReadsBack(n: int)
    ensures ParseSigned(PrintInt(n)) == Some(n)
  {
    NaturalsReadBack(if n < 0 then -n else n);
    if n < 0 {
      assert PrintInt(n)[1..] == PrintNat(-n);
    } else {
      assert IsDigit(PrintNat(n)[0]);
    }
  }

  lemma PrintedIntIsPlain(n: int)
    ensures PrintInt(n) != [] && forall i :: 0 <= i < |PrintInt(n)| ==> IsDigit(PrintInt(n)[i]) || PrintInt(n)[i] == '-'
  {
    NaturalsReadBack(if n < 0 then -n else n);
  }

  lemma IntegersReadBack(n: int)
    ensures ParseInt(PrintInt(n)) == Some(n)
    ensures '$' !in PrintInt(n)
  {
    PrintedIntIsPlain(n);
    SignedReadsBack(n);
  }

  /** Digits without a leading zero. */
  predicate PlainNat(text: string) {
    text != [] && (forall i :: 0 <= i < |text| ==> IsDigit(text[i])) && (|text| > 1 ==> text[0] != '0')
  }

  /** An optional minus and digits, with no leading zero and no negative zero. */
  predicate PlainInt(text: string) {
    if text != [] && text[0] == '-' then PlainNat(text[1..]) && text[1..] != "0" else PlainNat(text)
  }

  lemma {:induction false} PrintedNatIsPlain(n: nat)
    ensures PlainNat(PrintNat(n)) && (PrintNat(n)[0] == '0' ==> n == 0)
  {
    if n >= 10 {
      PrintedNatIsPlain(n / 10);
      assert PrintNat(n)[0] == PrintNat(n / 10)[0];
    }
  }

  lemma {:induction false} PlainNatPrintsBack(text: string)
    requires PlainNat(text)
    ensures ParseDigits(text).Some? && PrintNat(ParseDigits(text).value) == text
    ensures text[0] != '0' ==> ParseDigits(text).value > 0
  {
    var n := |text| - 1;
    assert text == text[..n] + [text[n]];
    if n > 0 {
      PlainNatPrintsBack(text[..n]);
      var before := ParseDigits(text[..n]).value;
      var value := before * 10 + (text[n] as int - '0' as int);
      assert ParseDigits(text) == Some(value);
      assert value / 10 == before && PrintNat(value) == PrintNat(before) + [text[n]];
    }
  }

  /** A number is printed as it was read exactly when it was spelled plainly. */
  lemma PlainIntIff(text: string)
    requires ParseInt(text).Some?
    ensures PrintInt(ParseInt(text).value) == text <==> PlainInt(text)
  {
    var n := ParseInt(text).value;
    if PrintInt(n) == text {
      PrintedNatIsPlain(if n < 0 then -n else n);
      if n < 0 {
        assert text[1..] == PrintNat(-n);
      }
    }
    if PlainInt(text) {
      if text[0] == '-' {
        PlainNatPrintsBack(text[1..]);
        assert text == "-" + text[1..];
      } else {
        PlainNatPrintsBack(text);
      }
      assert Trim(text) == text;
    }
  }
}
