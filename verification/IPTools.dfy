/** Conversions between 32-bit addresses and dotted text (Source/IPTools.cpp). */
module IPTools {
  import opened DottedText
  import Words

  /** `uint32_t octetInt = atoi(octet)`: conversion to an unsigned 32-bit value is modulo 2^32.
      Outside the range of `int` the C standard leaves atoi undefined; this model wraps. */
  function OctetOf(token: string): (v: nat)
    ensures v < 0x1_0000_0000
    ensures 0 <= Atoi(token) < 0x8000_0000 ==> v == Atoi(token)
    ensures -0x8000_0000 <= Atoi(token) < 0 ==> v > 255
  {
    Atoi(token) % 0x1_0000_0000
  }

  /** One of the first four tokens is no octet. */
  ghost predicate HasBadOctet(tokens: seq<string>) {
    exists i :: 0 <= i < |tokens| && i < 4 && OctetOf(tokens[i]) > 255
  }

  /** The 32-bit word with value v. Counted up instead of cast, so that the proofs about texts meet no
      integer-to-bits conversion; on octets it is the cast (ToUint32IsCast). */
  function ToUint32(v: nat): bv32 {
    if v == 0 then 0 else ToUint32(v - 1) + 1
  }

  /** The value of an octet, likewise (OctetValueIsCast). */
  function OctetValue(octet: bv32): nat {
    if octet == 0 then 0 else OctetValue(octet - 1) + 1
  }

  lemma Successor(c: bv32)
    requires c < 255
    ensures (c + 1) as int == c as int + 1 && c + 1 <= 255
  {
  }

  lemma {:induction false} ToUint32IsCast(v: nat)
    requires v <= 255
    ensures ToUint32(v) as int == v && ToUint32(v) <= 255
  {
    if v > 0 {
      ToUint32IsCast(v - 1);
      assert ToUint32(v - 1) != 255;
      Successor(ToUint32(v - 1));
    }
  }

  lemma {:induction false} OctetValueIsCast(octet: bv32)
    requires octet <= 255
    ensures OctetValue(octet) == octet as int <= 255
  {
    if octet > 0 {
      OctetValueIsCast(octet - 1);
    }
  }

  lemma CastInvertible(x: bv32)
    ensures (x as int) as bv32 == x
  {
  }

  lemma WordOfOctetValue(octet: bv32)
    requires octet <= 255
    ensures OctetValue(octet) <= 255 && ToUint32(OctetValue(octet)) == octet
  {
    OctetValueIsCast(octet);
    ToUint32IsCast(OctetValue(octet));
    CastInvertible(octet);
    CastInvertible(ToUint32(OctetValue(octet)));
  }

  lemma OctetValueOfWord(v: nat)
    requires v <= 255
    ensures ToUint32(v) <= 255 && OctetValue(ToUint32(v)) == v
  {
    ToUint32IsCast(v);
    OctetValueIsCast(ToUint32(v));
  }

  /** The i-th octet; 0 where the text gives none. */
  ghost function OctetAt(tokens: seq<string>, i: nat): (v: bv32)
    ensures v <= 255
  {
    if i < |tokens| && OctetOf(tokens[i]) <= 255 then
      ToUint32IsCast(OctetOf(tokens[i]));
      ToUint32(OctetOf(tokens[i]))
    else 0
  }

  /** The address a text stands for: its first four tokens, first token highest. */
  ghost function Packed(tokens: seq<string>): bv32 {
    if HasBadOctet(tokens) then 0
    else Assemble(OctetAt(tokens, 0), OctetAt(tokens, 1), OctetAt(tokens, 2), OctetAt(tokens, 3))
  }

  /** The four octets shifted into place and or-ed together. */
  function Assemble(a: bv32, b: bv32, c: bv32, d: bv32): bv32 {
    (((a << 24) | (b << 16)) | (c << 8)) | d
  }

  /** `octetInt << shift`, for the four shift counts the loop goes through. */
  function ShiftInto(octet: bv32, shift: int): bv32
    requires shift in {24, 16, 8, 0}
  {
    if shift == 24 then octet << 24 else if shift == 16 then octet << 16 else if shift == 8 then octet << 8 else octet
  }

  /** `ipInt |= octetInt << shift` */
  function Merge(ip: bv32, octet: bv32, shift: int): bv32
    requires shift in {24, 16, 8, 0}
  {
    ip | ShiftInto(octet, shift)
  }

  /** The first k of four octets in place. */
  function AssembleFirstK(a: bv32, b: bv32, c: bv32, d: bv32, k: nat): bv32 {
    if k == 0 then 0
    else if k == 1 then Assemble(a, 0, 0, 0)
    else if k == 2 then Assemble(a, b, 0, 0)
    else if k == 3 then Assemble(a, b, c, 0)
    else Assemble(a, b, c, d)
  }

  lemma MergeAt0(a: bv32, b: bv32, c: bv32, d: bv32, k: nat, octet: bv32, shift: int)
    requires k == 0 && shift == 24 - 8 * k && octet == a
    ensures Merge(AssembleFirstK(a, b, c, d, k), octet, shift) == AssembleFirstK(a, b, c, d, k + 1)
  {
  }

  lemma MergeAt1(a: bv32, b: bv32, c: bv32, d: bv32, k: nat, octet: bv32, shift: int)
    requires k == 1 && shift == 24 - 8 * k && octet == b
    ensures Merge(AssembleFirstK(a, b, c, d, k), octet, shift) == AssembleFirstK(a, b, c, d, k + 1)
  {
  }

  lemma MergeAt2(a: bv32, b: bv32, c: bv32, d: bv32, k: nat, octet: bv32, shift: int)
    requires k == 2 && shift == 24 - 8 * k && octet == c
    ensures Merge(AssembleFirstK(a, b, c, d, k), octet, shift) == AssembleFirstK(a, b, c, d, k + 1)
  {
  }

  lemma MergeAt3(a: bv32, b: bv32, c: bv32, d: bv32, k: nat, octet: bv32, shift: int)
    requires k == 3 && shift == 24 - 8 * k && octet == d
    ensures Merge(AssembleFirstK(a, b, c, d, k), octet, shift) == AssembleFirstK(a, b, c, d, k + 1)
  {
  }

  /** Each round puts its octet into the next place. */
  lemma MergeNext(a: bv32, b: bv32, c: bv32, d: bv32, k: nat, octet: bv32, shift: int)
    requires k < 4 && shift == 24 - 8 * k
    requires octet == if k == 0 then a else if k == 1 then b else if k == 2 then c else d
    ensures Merge(AssembleFirstK(a, b, c, d, k), octet, shift) == AssembleFirstK(a, b, c, d, k + 1)
  {
    match k {
      case 0 => MergeAt0(a, b, c, d, k, octet, shift);
      case 1 => MergeAt1(a, b, c, d, k, octet, shift);
      case 2 => MergeAt2(a, b, c, d, k, octet, shift);
      case 3 => MergeAt3(a, b, c, d, k, octet, shift);
    }
  }

  /** What the first k rounds of the loop have collected. */
  ghost function Collected(tokens: seq<string>, k: nat): bv32 {
    AssembleFirstK(OctetAt(tokens, 0), OctetAt(tokens, 1), OctetAt(tokens, 2), OctetAt(tokens, 3), k)
  }

  lemma CollectToken(tokens: seq<string>, k: nat, ip: bv32, octetInt: nat, shift: int)
    requires k < 4 && k < |tokens| && shift == 24 - 8 * k && octetInt == OctetOf(tokens[k]) <= 255
    requires ip == Collected(tokens, k)
    ensures Merge(ip, ToUint32(octetInt), shift) == Collected(tokens, k + 1)
  {
    MergeNext(OctetAt(tokens, 0), OctetAt(tokens, 1), OctetAt(tokens, 2), OctetAt(tokens, 3), k,
              OctetAt(tokens, k), shift);
  }

  lemma AssembleMissing(a: bv32, b: bv32, c: bv32, d: bv32, k: nat)
    requires (k < 1 ==> a == 0) && (k < 2 ==> b == 0) && (k < 3 ==> c == 0) && (k < 4 ==> d == 0)
    ensures AssembleFirstK(a, b, c, d, k) == Assemble(a, b, c, d)
  {
  }

  lemma CollectedAll(tokens: seq<string>, k: nat)
    requires k == 4 <= |tokens| || (k == |tokens| && k < 4)
    requires forall i :: 0 <= i < k ==> OctetOf(tokens[i]) <= 255
    ensures Collected(tokens, k) == Packed(tokens)
  {
    AssembleMissing(OctetAt(tokens, 0), OctetAt(tokens, 1), OctetAt(tokens, 2), OctetAt(tokens, 3), k);
  }

  lemma BadToken(tokens: seq<string>, k: nat)
    requires k < 4 && k < |tokens| && OctetOf(tokens[k]) > 255
    ensures Packed(tokens) == 0
  {
  }

  lemma TakeToken(s: string, pos: nat, tokens: seq<string>, k: nat)
    requires pos <= |s| && k <= |tokens| && tokens[k..] == Tokens(s[pos..])
    ensures NextIs(s, tokens, k, Strtok(s, pos))
  {
    StrtokTakesToken(s, pos);
    if Strtok(s, pos).Token? {
      assert tokens[k] == tokens[k..][0] && tokens[k + 1..] == tokens[k..][1..];
    }
  }

  /** With k tokens taken, strtok has delivered the next one, or nothing if there are no more. */
  ghost predicate NextIs(s: string, tokens: seq<string>, k: nat, octet: Token) {
    match octet
    case NoToken => k == |tokens|
    case Token(text, next) =>
      k < |tokens| && tokens[k] == text && next <= |s| && tokens[k + 1..] == Tokens(s[next..])
  }

  /** The first k tokens are octets, and the word holds them. */
  ghost predicate Holds(tokens: seq<string>, k: nat, ip: bv32) {
    && k <= 4 && k <= |tokens|
    && (forall i :: 0 <= i < k ==> OctetOf(tokens[i]) <= 255)
    && ip == Collected(tokens, k)
  }

  lemma HoldsNext(tokens: seq<string>, k: nat, ip: bv32, octetInt: nat, shift: int)
    requires Holds(tokens, k, ip) && k < 4 && k < |tokens| && shift == 24 - 8 * k
    requires octetInt == OctetOf(tokens[k]) <= 255
    ensures Holds(tokens, k + 1, Merge(ip, ToUint32(octetInt), shift))
  {
    CollectToken(tokens, k, ip, octetInt, shift);
  }

  lemma HoldsAll(tokens: seq<string>, k: nat, ip: bv32)
    requires Holds(tokens, k, ip) && (k == 4 || k == |tokens|)
    ensures ip == Packed(tokens)
  {
    CollectedAll(tokens, k);
  }

  method IPv4StringToInt(ipAddress: string) returns (ip: bv32)
    ensures ip == Packed(Tokens(ipAddress))
  {
    ghost var tokens := Tokens(ipAddress);
    ghost var k := 0;
    assert ipAddress[0..] == ipAddress && tokens[0..] == tokens;
    TakeToken(ipAddress, 0, tokens, 0);
    var octet := Strtok(ipAddress, 0);
    ip := 0;
    var shift := 24;
    while octet.Token? && shift >= 0
      invariant 0 <= k <= 4 && shift == 24 - 8 * k
      invariant Holds(tokens, k, ip)
      invariant NextIs(ipAddress, tokens, k, octet)
      decreases shift
    {
      var octetInt := OctetOf(octet.text);
      if octetInt > 255 {
        BadToken(tokens, k);
        return 0;
      }
      HoldsNext(tokens, k, ip, octetInt, shift);
      ip := Merge(ip, ToUint32(octetInt), shift);
      TakeToken(ipAddress, octet.next, tokens, k + 1);
      octet := Strtok(ipAddress, octet.next);
      shift := shift - 8;
      k := k + 1;
    }
    HoldsAll(tokens, k, ip);
  }

  /** The low byte is printed first: the argument is a network-order address loaded on a little-endian host. */
  function IntToIPv4String(ipAddress: bv32): string {
    var octet1 := (ipAddress >> 24) & 0xFF;
    var octet2 := (ipAddress >> 16) & 0xFF;
    var octet3 := (ipAddress >> 8) & 0xFF;
    var octet4 := ipAddress & 0xFF;
    OctetText(octet4) + "." + OctetText(octet3) + "." + OctetText(octet2) + "." + OctetText(octet1)
  }

  function OctetText(octet: bv32): string {
    ToString(OctetValue(octet))
  }

  function ReverseIP(ip: bv32): bv32 {
    ((ip & 0xFF) << 24) | (((ip >> 8) & 0xFF) << 16) | (((ip >> 16) & 0xFF) << 8) | ((ip >> 24) & 0xFF)
  }

  /** The map key the address-list operations use for a text. */
  ghost function KeyOf(text: string): bv32 {
    ReverseIP(Packed(Tokens(text)))
  }

  // ------------------------------------------------------------------------------------------
  // Properties
  // ------------------------------------------------------------------------------------------

  lemma ShiftOrIsHorner(a: bv32, b: bv32, c: bv32, d: bv32) returns (ab: bv32, abc: bv32)
    requires a <= 255 && b <= 255 && c <= 255 && d <= 255
    ensures ab == (a << 8) | b && ab <= 0xFFFF && abc == (ab << 8) | c && abc <= 0xFF_FFFF
    ensures Assemble(a, b, c, d) == (abc << 8) | d
  {
    ab := (a << 8) | b;
    abc := (ab << 8) | c;
  }

  lemma HornerIsPositional(word: bv32, a: bv32, b: bv32, c: bv32, d: bv32, ab: bv32, abc: bv32)
    requires a <= 255 && b <= 255 && c <= 255 && d <= 255 && ab <= 0xFFFF && abc <= 0xFF_FFFF
    requires ab == (a << 8) | b && abc == (ab << 8) | c && word == (abc << 8) | d
    ensures word as int == (a as int) * 0x100_0000 + (b as int) * 0x1_0000 + (c as int) * 0x100 + d as int
  {
    Words.AppendOctet(ab, a, b);
    Words.AppendOctet(abc, ab, c);
    Words.AppendOctet(word, abc, d);
  }

  lemma ShiftOrIsPositional(word: bv32, a: bv32, b: bv32, c: bv32, d: bv32)
    requires a <= 255 && b <= 255 && c <= 255 && d <= 255 && word == Assemble(a, b, c, d)
    ensures word as int == (a as int) * 0x100_0000 + (b as int) * 0x1_0000 + (c as int) * 0x100 + d as int
  {
    var ab, abc := ShiftOrIsHorner(a, b, c, d);
    HornerIsPositional(word, a, b, c, d, ab, abc);
  }

  /** The i-th token as a number; 0 where the text gives none. */
  ghost function Place(tokens: seq<string>, i: nat): nat {
    if i < |tokens| then OctetOf(tokens[i]) else 0
  }

  lemma OctetAtIsPlace(tokens: seq<string>, i: nat)
    requires i < 4 && !HasBadOctet(tokens)
    ensures OctetAt(tokens, i) as int == Place(tokens, i)
  {
    if i < |tokens| {
      ToUint32IsCast(OctetOf(tokens[i]));
    }
  }

  /** As an integer the result is the positional value of the first four tokens, base 256, and 0 if any of them
      exceeds 255. */
  lemma PackedIsPositional(tokens: seq<string>)
    ensures Packed(tokens) as int
         == if exists i :: 0 <= i < |tokens| && i < 4 && OctetOf(tokens[i]) > 255 then 0
            else Place(tokens, 0) * 0x100_0000 + Place(tokens, 1) * 0x1_0000 + Place(tokens, 2) * 0x100
                 + Place(tokens, 3)
  {
    if !HasBadOctet(tokens) {
      OctetAtIsPlace(tokens, 0);
      OctetAtIsPlace(tokens, 1);
      OctetAtIsPlace(tokens, 2);
      OctetAtIsPlace(tokens, 3);
      ShiftOrIsPositional(Packed(tokens), OctetAt(tokens, 0), OctetAt(tokens, 1), OctetAt(tokens, 2),
                          OctetAt(tokens, 3));
    }
  }

  /** A token of decimal digits within the range of `int` stands for its decimal value. */
  lemma OctetOfDecimal(token: string)
    requires AllDigits(token) && Decimal(token) < 0x8000_0000
    ensures OctetOf(token) == Decimal(token)
  {
    AtoiIsDecimal(token);
  }

  lemma PackedReadsFour(tokens: seq<string>, extra: seq<string>)
    requires |tokens| >= 4
    ensures Packed(tokens + extra) == Packed(tokens)
  {
    var long := tokens + extra;
    assert forall i :: 0 <= i < 4 ==> long[i] == tokens[i];
    assert forall i :: 0 <= i < 4 ==> OctetAt(long, i) == OctetAt(tokens, i);
    assert HasBadOctet(long) <==> HasBadOctet(tokens);
  }

  /** Extra dots anywhere leave the address unchanged, and text after the fourth token is never looked at. */
  lemma OnlyTheFirstFourTokensMatter(a: string, b: string)
    ensures Packed(Tokens(a + "." + "." + b)) == Packed(Tokens(a + "." + b))
    ensures Packed(Tokens("." + a)) == Packed(Tokens(a)) == Packed(Tokens(a + "."))
    ensures |Tokens(a)| >= 4 ==> Packed(Tokens(a + "." + b)) == Packed(Tokens(a))
  {
    RepeatedDots(a, b);
    OuterDots(a);
    TokensAtDot(a, b);
    if |Tokens(a)| >= 4 {
      PackedReadsFour(Tokens(a), Tokens(b));
    }
  }

  /** ReverseIP undoes itself. */
  lemma ReverseIPInvolution(ip: bv32)
    ensures ReverseIP(ReverseIP(ip)) == ip
  {
  }

  /** An octet survives printing and parsing. */
  lemma OctetRoundTrip(b: bv32)
    requires b <= 255
    ensures OctetOf(OctetText(b)) <= 255 && ToUint32(OctetOf(OctetText(b))) == b
    ensures IsOctetText(OctetText(b))
  {
    WordOfOctetValue(b);
    AtoiToString(OctetValue(b));
  }

  lemma OctetTextIsToken(b: bv32)
    requires b <= 255
    ensures OctetText(b) != "" && '.' !in OctetText(b) && OctetOf(OctetText(b)) <= 255
  {
    OctetRoundTrip(b);
  }

  function Quad(t: seq<string>): string
    requires |t| == 4
  {
    t[0] + "." + t[1] + "." + t[2] + "." + t[3]
  }

  lemma OctetAtRoundTrip(t: seq<string>, i: nat, b: bv32)
    requires i < |t| && b <= 255 && t[i] == OctetText(b)
    ensures OctetAt(t, i) == b
  {
    OctetRoundTrip(b);
  }

  ghost predicate AreOctets(t: seq<string>) {
    |t| == 4 && forall i :: 0 <= i < 4 ==> t[i] != "" && '.' !in t[i] && OctetOf(t[i]) <= 255
  }

  lemma TextsOfOctets(a: bv32, b: bv32, c: bv32, d: bv32)
    requires a <= 255 && b <= 255 && c <= 255 && d <= 255
    ensures AreOctets([OctetText(a), OctetText(b), OctetText(c), OctetText(d)])
  {
    OctetTextIsToken(a);
    OctetTextIsToken(b);
    OctetTextIsToken(c);
    OctetTextIsToken(d);
  }

  lemma TokensOfOctets(a: bv32, b: bv32, c: bv32, d: bv32) returns (t: seq<string>)
    requires a <= 255 && b <= 255 && c <= 255 && d <= 255
    ensures t == [OctetText(a), OctetText(b), OctetText(c), OctetText(d)]
    ensures Tokens(Quad(t)) == t && !HasBadOctet(t)
    ensures OctetAt(t, 0) == a && OctetAt(t, 1) == b && OctetAt(t, 2) == c && OctetAt(t, 3) == d
  {
    t := [OctetText(a), OctetText(b), OctetText(c), OctetText(d)];
    TextsOfOctets(a, b, c, d);
    TokensOfQuad(t);
    OctetAtRoundTrip(t, 0, a);
    OctetAtRoundTrip(t, 1, b);
    OctetAtRoundTrip(t, 2, c);
    OctetAtRoundTrip(t, 3, d);
  }

  lemma PackedQuad(a: bv32, b: bv32, c: bv32, d: bv32)
    requires a <= 255 && b <= 255 && c <= 255 && d <= 255
    ensures Packed(Tokens(Quad([OctetText(a), OctetText(b), OctetText(c), OctetText(d)]))) == Assemble(a, b, c, d)
  {
    var t := TokensOfOctets(a, b, c, d);
  }

  lemma ReverseAssembles(x: bv32)
    ensures ReverseIP(x) == Assemble(x & 0xFF, (x >> 8) & 0xFF, (x >> 16) & 0xFF, (x >> 24) & 0xFF)
    ensures x & 0xFF <= 255 && (x >> 8) & 0xFF <= 255 && (x >> 16) & 0xFF <= 255 && (x >> 24) & 0xFF <= 255
  {
  }

  /** Printing an address and parsing the text swaps its byte order, so the address list keys on the address. */
  lemma PrintThenParse(x: bv32)
    ensures Packed(Tokens(IntToIPv4String(x))) == ReverseIP(x)
    ensures KeyOf(IntToIPv4String(x)) == x
  {
    ReverseAssembles(x);
    PackedQuad(x & 0xFF, (x >> 8) & 0xFF, (x >> 16) & 0xFF, (x >> 24) & 0xFF);
    ReverseIPInvolution(x);
  }

  /** Different addresses print differently. */
  lemma PrintInjective(x: bv32, y: bv32)
    requires IntToIPv4String(x) == IntToIPv4String(y)
    ensures x == y
  {
    PrintThenParse(x);
    PrintThenParse(y);
  }

  /** Decimal text of an octet without superfluous leading zeros. */
  predicate IsOctetText(t: string) {
    IsCanonical(t) && LeadingDigits(t, 0) <= 255
  }

  ghost predicate IsDottedQuad(s: string) {
    exists t: seq<string> :: |t| == 4 && s == Quad(t) && forall i :: 0 <= i < 4 ==> IsOctetText(t[i])
  }

  lemma OctetTextIsPrinted(t: string) returns (b: bv32)
    requires IsOctetText(t)
    ensures b <= 255 && OctetText(b) == t
  {
    b := ToUint32(LeadingDigits(t, 0));
    OctetValueOfWord(LeadingDigits(t, 0));
    ToStringAtoi(t);
  }

  lemma ReversedOctets(a: bv32, b: bv32, c: bv32, d: bv32)
    requires a <= 255 && b <= 255 && c <= 255 && d <= 255
    ensures var x := ReverseIP(Assemble(a, b, c, d));
            x & 0xFF == a && (x >> 8) & 0xFF == b && (x >> 16) & 0xFF == c && (x >> 24) & 0xFF == d
  {
  }

  lemma PrintOctets(x: bv32, a: bv32, b: bv32, c: bv32, d: bv32)
    requires x & 0xFF == a && (x >> 8) & 0xFF == b && (x >> 16) & 0xFF == c && (x >> 24) & 0xFF == d
    ensures IntToIPv4String(x) == Quad([OctetText(a), OctetText(b), OctetText(c), OctetText(d)])
  {
  }

  lemma OctetTextsMakeDottedQuad(t: seq<string>)
    requires |t| == 4 && IsOctetText(t[0]) && IsOctetText(t[1]) && IsOctetText(t[2]) && IsOctetText(t[3])
    ensures IsDottedQuad(Quad(t))
  {
    assert forall i :: 0 <= i < 4 ==> IsOctetText(t[i]);
  }

  lemma OctetTextIsCanonical(b: bv32)
    requires b <= 255
    ensures IsOctetText(OctetText(b))
  {
    OctetRoundTrip(b);
  }

  lemma OctetsMakeDottedQuad(a: bv32, b: bv32, c: bv32, d: bv32)
    requires a <= 255 && b <= 255 && c <= 255 && d <= 255
    ensures IsDottedQuad(Quad([OctetText(a), OctetText(b), OctetText(c), OctetText(d)]))
  {
    OctetTextIsCanonical(a);
    OctetTextIsCanonical(b);
    OctetTextIsCanonical(c);
    OctetTextIsCanonical(d);
    OctetTextsMakeDottedQuad([OctetText(a), OctetText(b), OctetText(c), OctetText(d)]);
  }

  lemma PrintIsDottedQuad(x: bv32)
    ensures IsDottedQuad(IntToIPv4String(x))
  {
    ReverseAssembles(x);
    var a, b, c, d := x & 0xFF, (x >> 8) & 0xFF, (x >> 16) & 0xFF, (x >> 24) & 0xFF;
    PrintOctets(x, a, b, c, d);
    OctetsMakeDottedQuad(a, b, c, d);
  }

  lemma OctetsArePrinted(a: bv32, b: bv32, c: bv32, d: bv32)
    requires a <= 255 && b <= 255 && c <= 255 && d <= 255
    ensures var s := Quad([OctetText(a), OctetText(b), OctetText(c), OctetText(d)]);
            IntToIPv4String(KeyOf(s)) == s
  {
    PackedQuad(a, b, c, d);
    ReversedOctets(a, b, c, d);
    PrintOctets(ReverseIP(Assemble(a, b, c, d)), a, b, c, d);
  }

  lemma QuadIsPrinted(t: seq<string>)
    requires |t| == 4 && IsOctetText(t[0]) && IsOctetText(t[1]) && IsOctetText(t[2]) && IsOctetText(t[3])
    ensures IntToIPv4String(KeyOf(Quad(t))) == Quad(t)
  {
    var a := OctetTextIsPrinted(t[0]);
    var b := OctetTextIsPrinted(t[1]);
    var c := OctetTextIsPrinted(t[2]);
    var d := OctetTextIsPrinted(t[3]);
    assert t == [OctetText(a), OctetText(b), OctetText(c), OctetText(d)];
    OctetsArePrinted(a, b, c, d);
  }

  /** Parsing then printing gives a text back exactly when it is a dotted quad in canonical form. */
  lemma ParseThenPrint(s: string)
    ensures IntToIPv4String(KeyOf(s)) == s <==> IsDottedQuad(s)
  {
    PrintIsDottedQuad(KeyOf(s));
    if IsDottedQuad(s) {
      var t: seq<string> :| |t| == 4 && s == Quad(t) && forall i :: 0 <= i < 4 ==> IsOctetText(t[i]);
      QuadIsPrinted(t);
    }
  }
}
