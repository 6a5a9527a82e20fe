/** Dotted-decimal text: what `to_string`, `atoi` and `strtok` do with it. */
module DottedText {
  // ------------------------------------------------------------------------------------------
  // Decimal numbers
  // ------------------------------------------------------------------------------------------

  predicate IsDigit(c: char) {
    '0' <= c <= '9'
  }

  function DigitValue(c: char): (d: nat)
    requires IsDigit(c)
    ensures d < 10
  {
    c as int - '0' as int
  }

  function Digit(d: nat): (c: char)
    requires d < 10
    ensures IsDigit(c) && DigitValue(c) == d
  {
    (d + '0' as int) as char
  }

  predicate AllDigits(s: string) {
    forall c :: c in s ==> IsDigit(c)
  }

  /** std::to_string on an unsigned value. */
  function ToString(n: nat): (s: string)
    ensures s != "" && AllDigits(s)
    ensures s[0] == '0' ==> n == 0 && s == "0"
  {
    if n < 10 then [Digit(n)] else ToString(n / 10) + [Digit(n % 10)]
  }

  predicate IsSpace(c: char) {
    c == ' ' || 9 <= c as int <= 13
  }

  /** The value of the leading digits of `s`, with `acc` read before them. */
  function LeadingDigits(s: string, acc: nat): (v: nat) {
    if s == "" || !IsDigit(s[0]) then acc
    else LeadingDigits(s[1..], 10 * acc + DigitValue(s[0]))
  }

  function SkipSpace(s: string): string {
    if s != "" && IsSpace(s[0]) then SkipSpace(s[1..]) else s
  }

  /** atoi: leading white space, one optional sign, then digits up to the first other character. */
  function Atoi(s: string): int {
    var t := SkipSpace(s);
    if t != "" && t[0] == '-' then 0 - LeadingDigits(t[1..], 0) as int
    else if t != "" && t[0] == '+' then LeadingDigits(t[1..], 0)
    else LeadingDigits(t, 0)
  }

  lemma {:induction false} LeadingDigitsAppend(s: string, t: string, acc: nat)
    requires AllDigits(s)
    ensures LeadingDigits(s + t, acc) == LeadingDigits(t, LeadingDigits(s, acc))
  {
    if s == "" {
      assert s + t == t;
    } else {
      assert (s + t)[1..] == s[1..] + t;
      LeadingDigitsAppend(s[1..], t, 10 * acc + DigitValue(s[0]));
    }
  }

  /** Printing then reading a number gives it back. */
  lemma {:induction false} AtoiToString(n: nat)
    ensures LeadingDigits(ToString(n), 0) == n
    ensures Atoi(ToString(n)) == n
  {
    if n >= 10 {
      AtoiToString(n / 10);
      LeadingDigitsAppend(ToString(n / 10), [Digit(n % 10)], 0);
      assert [Digit(n % 10)][1..] == "";
    } else {
      assert [Digit(n)][1..] == "";
    }
    assert IsDigit(ToString(n)[0]);
  }

  /** The positional value of a digit string. */
  ghost function Decimal(s: string): nat
    requires AllDigits(s)
  {
    if s == "" then 0
    else
      assert IsDigit(s[|s| - 1]);
      10 * Decimal(s[..|s| - 1]) + (s[|s| - 1] as int - 48)
  }

  /** On digit strings atoi computes the positional value. */
  lemma {:induction false} AtoiIsDecimal(s: string)
    requires AllDigits(s)
    ensures Atoi(s) == LeadingDigits(s, 0) == Decimal(s)
  {
    if s != "" {
      var last := |s| - 1;
      AtoiIsDecimal(s[..last]);
      LeadingDigitsAppend(s[..last], [s[last]], 0);
      assert s == s[..last] + [s[last]] && [s[last]][1..] == "";
      assert IsDigit(s[0]);
    }
  }

  /** Blank, or one of tab, line feed, vertical tab, form feed and carriage return. */
  ghost predicate IsSpaceCode(code: int) {
    code == 32 || 9 <= code <= 13
  }

  lemma {:induction false} SkipSpaces(spaces: string, t: string)
    requires forall i :: 0 <= i < |spaces| ==> IsSpaceCode(spaces[i] as int)
    requires t != "" ==> !IsSpaceCode(t[0] as int)
    ensures SkipSpace(spaces + t) == t
  {
    if spaces == "" {
      assert spaces + t == t;
    } else {
      assert IsSpaceCode(spaces[0] as int) && (spaces + t)[1..] == spaces[1..] + t;
      SkipSpaces(spaces[1..], t);
    }
  }

  lemma DigitsThenRest(digits: string, rest: string)
    requires AllDigits(digits) && (rest != "" ==> rest[0] as int < 48 || rest[0] as int > 57)
    ensures LeadingDigits(digits + rest, 0) == Decimal(digits)
  {
    LeadingDigitsAppend(digits, rest, 0);
    AtoiIsDecimal(digits);
  }

  /** atoi on any text, cut into white space, a sign or none, digits, and what follows them. (Where neither sign nor
      digits are there, what follows the white space is something else.) */
  lemma AtoiOfText(spaces: string, sign: string, digits: string, rest: string)
    requires forall i :: 0 <= i < |spaces| ==> IsSpaceCode(spaces[i] as int)
    requires sign in {"", "+", "-"} && AllDigits(digits)
    requires rest != "" ==> rest[0] as int < 48 || rest[0] as int > 57
    requires sign == "" && digits == "" && rest != "" ==>
               !IsSpaceCode(rest[0] as int) && rest[0] != '+' && rest[0] != '-'
    ensures Atoi(spaces + (sign + (digits + rest)))
         == if sign == "-" then 0 - Decimal(digits) as int else Decimal(digits) as int
  {
    var text := sign + (digits + rest);
    if digits != "" {
      assert IsDigit(digits[0]);
    }
    SkipSpaces(spaces, text);
    DigitsThenRest(digits, rest);
    if sign == "" {
      assert text == digits + rest;
    } else {
      assert text[1..] == digits + rest;
    }
  }

  /** Decimal text without superfluous leading zeros. */
  predicate IsCanonical(s: string) {
    s != "" && AllDigits(s) && (s[0] == '0' ==> s == "0")
  }

  lemma ToStringAppendsDigit(v: nat, d: nat)
    requires v > 0 && d < 10
    ensures ToString(10 * v + d) == ToString(v) + [Digit(d)]
  {
    assert (10 * v + d) / 10 == v && (10 * v + d) % 10 == d;
  }

  lemma DigitOfValue(c: char)
    requires IsDigit(c)
    ensures Digit(DigitValue(c)) == c && LeadingDigits([c], 0) == DigitValue(c)
  {
    assert [c][1..] == "";
  }

  /** Canonical text but for its last character is canonical, and not zero. */
  lemma CanonicalFront(s: string)
    requires IsCanonical(s) && |s| > 1
    ensures IsCanonical(s[..|s| - 1]) && s[0] != '0'
    ensures LeadingDigits(s, 0) == 10 * LeadingDigits(s[..|s| - 1], 0) + DigitValue(s[|s| - 1])
  {
    var last := |s| - 1;
    assert s == s[..last] + [s[last]] && IsDigit(s[last]) && s[..last][0] == s[0];
    LeadingDigitsAppend(s[..last], [s[last]], 0);
    assert [s[last]][1..] == "";
  }

  lemma ZeroPrints(v: nat)
    ensures ToString(v) == "0" <==> v == 0
  {
    if v >= 10 {
      assert |ToString(v)| == |ToString(v / 10)| + 1 && |ToString(v / 10)| > 0;
    }
  }

  lemma {:induction false} PrintsItsValue(s: string)
    requires IsCanonical(s)
    ensures ToString(LeadingDigits(s, 0)) == s
  {
    var last := |s| - 1;
    if last == 0 {
      assert s == [s[0]];
      DigitOfValue(s[0]);
    } else {
      CanonicalFront(s);
      PrintsItsValue(s[..last]);
      ZeroPrints(LeadingDigits(s[..last], 0));
      DigitOfValue(s[last]);
      ToStringAppendsDigit(LeadingDigits(s[..last], 0), DigitValue(s[last]));
      assert s == s[..last] + [s[last]];
    }
  }

  /** Reading then printing canonical text gives it back. */
  lemma ToStringAtoi(s: string)
    requires IsCanonical(s)
    ensures ToString(LeadingDigits(s, 0)) == s
    ensures Atoi(s) == LeadingDigits(s, 0)
  {
    PrintsItsValue(s);
    AtoiIsDecimal(s);
  }

  // ------------------------------------------------------------------------------------------
  // Tokens between dots
  // ------------------------------------------------------------------------------------------

  /** The pieces between consecutive dots, empty ones included. */
  ghost function Split(s: string): (pieces: seq<string>)
    ensures |pieces| >= 1
  {
    if s == "" then [""]
    else
      var rest := Split(s[1..]);
      if s[0] == '.' then [""] + rest else [[s[0]] + rest[0]] + rest[1..]
  }

  ghost function NonEmpty(pieces: seq<string>): seq<string> {
    if pieces == [] then []
    else (if pieces[0] == "" then [] else [pieces[0]]) + NonEmpty(pieces[1..])
  }

  /** The non-empty pieces between dots. */
  ghost function Tokens(s: string): seq<string> {
    NonEmpty(Split(s))
  }

  lemma {:induction false} SplitAtDot(a: string, b: string)
    ensures Split(a + "." + b) == Split(a) + Split(b)
  {
    var s := a + "." + b;
    if a == "" {
      assert s[1..] == b && s[0] == '.';
    } else {
      SplitAtDot(a[1..], b);
      assert s[1..] == a[1..] + "." + b && s[0] == a[0];
      SplitNext(s, a, Split(b));
    }
  }

  lemma SplitNext(s: string, a: string, rest: seq<string>)
    requires s != "" && a != "" && s[0] == a[0] && Split(s[1..]) == Split(a[1..]) + rest
    ensures Split(s) == Split(a) + rest
  {
  }

  lemma {:induction false} NonEmptyAppend(a: seq<string>, b: seq<string>)
    ensures NonEmpty(a + b) == NonEmpty(a) + NonEmpty(b)
  {
    var c := a + b;
    if a == [] {
      assert c == b;
    } else {
      assert c[0] == a[0] && c[1..] == a[1..] + b;
      var head, rest := if a[0] == "" then [] else [a[0]], NonEmpty(a[1..]);
      assert NonEmpty(a) == head + rest && NonEmpty(c) == head + NonEmpty(c[1..]);
      NonEmptyAppend(a[1..], b);
      assert (head + rest) + NonEmpty(b) == head + (rest + NonEmpty(b));
    }
  }

  /** A dot only separates: it does not matter how many there are, nor whether text surrounds them. */
  lemma TokensAtDot(a: string, b: string)
    ensures Tokens(a + "." + b) == Tokens(a) + Tokens(b)
  {
    SplitAtDot(a, b);
    NonEmptyAppend(Split(a), Split(b));
  }

  lemma {:induction false} TokensOfWord(w: string)
    requires '.' !in w
    ensures Split(w) == [w]
    ensures Tokens(w) == if w == "" then [] else [w]
  {
    if w != "" {
      assert '.' !in w[1..] && w[0] in w;
      TokensOfWord(w[1..]);
      assert w == [w[0]] + w[1..];
    }
    assert NonEmpty([w][1..]) == [];
  }

  lemma FinalDot(a: string)
    ensures Tokens(a + ".") == Tokens(a)
  {
    TokensOfWord("");
    TokensAtDot(a, "");
    assert a + "." + "" == a + ".";
  }

  lemma RepeatedDots(a: string, b: string)
    ensures Tokens(a + "." + "." + b) == Tokens(a + "." + b)
  {
    TokensAtDot(a, b);
    TokensAtDot(a + ".", b);
    FinalDot(a);
  }

  lemma OuterDots(a: string)
    ensures Tokens("." + a) == Tokens(a) == Tokens(a + ".")
  {
    TokensOfWord("");
    TokensAtDot(a, "");
    TokensAtDot("", a);
    assert a + "." + "" == a + "." && "" + "." + a == "." + a;
  }

  /** The four tokens of a dotted quad. */
  lemma TokensOfQuad(t: seq<string>)
    requires |t| == 4 && forall i :: 0 <= i < 4 ==> t[i] != "" && '.' !in t[i]
    ensures Tokens(t[0] + "." + t[1] + "." + t[2] + "." + t[3]) == t
  {
    TokensAtDot(t[0] + "." + t[1] + "." + t[2], t[3]);
    TokensAtDot(t[0] + "." + t[1], t[2]);
    TokensAtDot(t[0], t[1]);
    forall i | 0 <= i < 4 ensures Tokens(t[i]) == [t[i]] {
      TokensOfWord(t[i]);
    }
  }

  // ------------------------------------------------------------------------------------------
  // strtok
  // ------------------------------------------------------------------------------------------

  datatype Token = NoToken | Token(text: string, next: nat)

  function SkipDots(s: string, pos: nat): (r: nat)
    requires pos <= |s|
    ensures pos <= r <= |s|
    ensures r < |s| ==> s[r] != '.'
    decreases |s| - pos
  {
    if pos < |s| && s[pos] == '.' then SkipDots(s, pos + 1) else pos
  }

  function FindDot(s: string, pos: nat): (r: nat)
    requires pos <= |s|
    ensures pos <= r <= |s| && '.' !in s[pos..r]
    ensures r < |s| ==> s[r] == '.'
    decreases |s| - pos
  {
    if pos < |s| && s[pos] != '.' then
      var r := FindDot(s, pos + 1);
      assert s[pos..r] == [s[pos]] + s[pos + 1..r];
      r
    else pos
  }

  /** strtok with "." from position `pos`: the next token, and where the search resumes. */
  function Strtok(s: string, pos: nat): (t: Token)
    requires pos <= |s|
    ensures t.Token? ==> pos < t.next <= |s|
  {
    var start := SkipDots(s, pos);
    if start == |s| then NoToken
    else
      var end := FindDot(s, start);
      Token(s[start..end], if end < |s| then end + 1 else end)
  }

  lemma {:induction false} SkipDotsKeepsTokens(s: string, pos: nat)
    requires pos <= |s|
    ensures Tokens(s[pos..]) == Tokens(s[SkipDots(s, pos)..])
    decreases |s| - pos
  {
    if pos < |s| && s[pos] == '.' {
      assert s[pos..] == "" + "." + s[pos + 1..];
      TokensAtDot("", s[pos + 1..]);
      SkipDotsKeepsTokens(s, pos + 1);
    }
  }

  lemma WordAtEnd(w: string)
    requires w != "" && '.' !in w
    ensures Tokens(w) == [w] + Tokens("")
  {
    TokensOfWord(w);
    TokensOfWord("");
  }

  lemma WordBeforeDot(w: string, rest: string)
    requires w != "" && '.' !in w
    ensures Tokens(w + "." + rest) == [w] + Tokens(rest)
  {
    TokensAtDot(w, rest);
    TokensOfWord(w);
  }

  /** Successive calls of strtok enumerate exactly the tokens. */
  lemma StrtokTakesToken(s: string, pos: nat)
    requires pos <= |s|
    ensures match Strtok(s, pos)
            case NoToken => Tokens(s[pos..]) == []
            case Token(text, next) => Tokens(s[pos..]) == [text] + Tokens(s[next..])
  {
    SkipDotsKeepsTokens(s, pos);
    var start := SkipDots(s, pos);
    if start == |s| {
      TokensOfWord("");
      assert s[start..] == "";
    } else {
      var end := FindDot(s, start);
      if end < |s| {
        assert s[start..] == s[start..end] + "." + s[end + 1..];
        WordBeforeDot(s[start..end], s[end + 1..]);
      } else {
        assert s[start..] == s[start..end] && s[end..] == "";
        WordAtEnd(s[start..end]);
      }
    }
  }
}
