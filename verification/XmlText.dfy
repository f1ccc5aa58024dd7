/** Character data in TinyXML (NSP/tinyxml.cpp, NSP/tinyxmlparser.cpp): entities, names and
    white space, for single-byte text. A C string is its bytes before the terminator. */
module XmlText {
  import opened Sequences

  type Chr = c: char | 0 < c as int < 256 witness 'a'
  type Str = seq<Chr>

  /** isspace of the C locale. */
  predicate IsWhiteSpace(c: char) {
    c == ' ' || 9 <= c as int <= 13
  }

  predicate IsAlpha(c: char) {
    if c as int < 127 then 'a' <= c <= 'z' || 'A' <= c <= 'Z' else true
  }

  predicate IsAlphaNum(c: char) {
    if c as int < 127 then 'a' <= c <= 'z' || 'A' <= c <= 'Z' || '0' <= c <= '9' else true
  }

  predicate Prefix(p: seq<char>, s: seq<char>) {
    |p| <= |s| && s[..|p|] == p
  }

  // ----- EncodeString -----

  function HexDigit(n: nat): Chr
    requires n < 16
  {
    if n < 10 then ('0' as int + n) as char else ('A' as int + n - 10) as char
  }

  const AMP: Str := ['&', 'a', 'm', 'p', ';']
  const LT: Str := ['&', 'l', 't', ';']
  const GT: Str := ['&', 'g', 't', ';']
  const QUOT: Str := ['&', 'q', 'u', 'o', 't', ';']
  const APOS: Str := ['&', 'a', 'p', 'o', 's', ';']

  function EncodeChar(c: Chr): (s: Str)
    ensures s != []
  {
    if c == '&' then AMP
    else if c == '<' then LT
    else if c == '>' then GT
    else if c == '\"' then QUOT
    else if c == '\'' then APOS
    else if c as int < 32 then ['&', '#', 'x', HexDigit(c as int / 16), HexDigit(c as int % 16), ';']
    else [c]
  }

  /** What looks like a hexadecimal character reference is passed through. */
  predicate RefHere(v: Str) {
    |v| >= 3 && v[0] == '&' && v[1] == '#' && v[2] == 'x'
  }

  /** How many characters are passed through: as far as a semicolon, or the last character
      but one. */
  function RawLength(v: Str, n: nat): (r: nat)
    requires 0 < n < |v|
    ensures n <= r < |v| && (r < |v| - 1 ==> v[r] == ';') && forall i :: n <= i < r ==> v[i] != ';'
    decreases |v| - n
  {
    if v[n] == ';' || n == |v| - 1 then n else RawLength(v, n + 1)
  }

  function Encode(v: Str): Str
    decreases |v|
  {
    if v == [] then []
    else if RefHere(v) then v[..RawLength(v, 1)] + Encode(v[RawLength(v, 1)..])
    else EncodeChar(v[0]) + Encode(v[1..])
  }

  lemma {:induction false} RawIs(v: Str, m: nat, n: nat)
    requires 0 < m <= n < |v| && (forall i :: m <= i < n ==> v[i] != ';') && (v[n] == ';' || n == |v| - 1)
    ensures RawLength(v, m) == n
    decreases n - m
  {
    if m < n { RawIs(v, m + 1, n); }
  }

  /** The inner loop of EncodeString. */
  method PassThrough(str: Str, start: nat, before: Str) returns (i: nat, outString: Str)
    requires start <= |str| && RefHere(str[start..])
    ensures start < i < |str| && i - start == RawLength(str[start..], 1) && outString == before + str[start..i]
  {
    i, outString := start, before;
    while i < |str| - 1
      invariant start <= i < |str| && outString == before + str[start..i]
      invariant forall k :: start < k <= i ==> str[k] != ';'
    {
      outString := outString + [str[i]];
      i := i + 1;
      if str[i] == ';' {
        break;
      }
    }
    RawIs(str[start..], 1, i - start);
  }

  lemma EncodeStep(v: Str)
    requires v != []
    ensures RefHere(v) ==> Encode(v) == v[..RawLength(v, 1)] + Encode(v[RawLength(v, 1)..])
    ensures !RefHere(v) ==> Encode(v) == EncodeChar(v[0]) + Encode(v[1..])
  {
  }

  /** TiXmlBase::EncodeString, appending to the text before. */
  method EncodeString(str: Str, before: Str) returns (outString: Str)
    ensures outString == before + Encode(str)
  {
    hide Encode, EncodeChar;
    outString := before;
    var i := 0;
    assert str[0..] == str;
    while i < |str|
      invariant 0 <= i <= |str| && before + Encode(str) == outString + Encode(str[i..])
      decreases |str| - i
    {
      var c := str[i];
      ghost var start := i;
      EncodeStep(str[start..]);
      if c == '&' && i < |str| - 2 && str[i + 1] == '#' && str[i + 2] == 'x' {
        i, outString := PassThrough(str, i, outString);
        assert str[start..][..i - start] == str[start..i] && str[start..][i - start..] == str[i..];
      } else {
        outString := outString + EncodeChar(c);
        i := i + 1;
        assert str[start..][1..] == str[i..];
      }
    }
    EncodeEnd();
    assert str[i..] == [];
  }

  lemma EncodeEnd()
    ensures Encode([]) == []
  {
  }

  // ----- Reading characters -----

  /** A pointer after a character, or the null pointer. */
  datatype Got = NoChar | Got(chars: seq<char>, rest: Str)

  function Find(s: Str, c: char, i: nat): (k: nat)
    requires i <= |s|
    ensures i <= k <= |s| && (k < |s| ==> s[k] == c) && forall j :: i <= j < k ==> s[j] != c
    decreases |s| - i
  {
    if i == |s| || s[i] == c then i else Find(s, c, i + 1)
  }

  datatype Number = NotANumber | Number(n: nat)

  function HexValue(c: char): Number {
    if '0' <= c <= '9' then Number(c as int - '0' as int)
    else if 'a' <= c <= 'f' then Number(c as int - 'a' as int + 10)
    else if 'A' <= c <= 'F' then Number(c as int - 'A' as int + 10)
    else NotANumber
  }

  /** The digits before position q, back to the stop character. */
  function DigitsBack(s: Str, q: nat, stop: char, base: nat): Number
    requires q < |s| && exists k :: 0 <= k <= q && s[k] == stop
  {
    if s[q] == stop then Number(0)
    else
      match HexValue(s[q])
      case NotANumber => NotANumber
      case Number(d) =>
        if d >= base then NotANumber
        else
          match DigitsBack(s, q - 1, stop, base)
          case NotANumber => NotANumber
          case Number(n) => Number(d + base * n)
  }

  /** The character reference that ends at the semicolon at position d. */
  function CharRef(s: Str, d: nat, stop: char, base: nat): Got
    requires 0 < d < |s| && exists k :: 0 <= k <= d - 1 && s[k] == stop
  {
    match DigitsBack(s, d - 1, stop, base)
    case NotANumber => NoChar
    case Number(n) => Got([(n % 256) as char], s[d + 1..])
  }

  /** TiXmlBase::GetEntity, at an ampersand. An unknown entity loses its ampersand. */
  function GetEntity(s: Str): (r: Got)
    requires s != [] && s[0] == '&'
    ensures r.Got? ==> |r.rest| < |s| && |r.chars| <= 1
  {
    if |s| > 2 && s[1] == '#' then
      if s[2] == 'x' then
        if |s| == 3 then NoChar
        else
          var d := Find(s, ';', 3);
          if d == |s| then NoChar else CharRef(s, d, 'x', 16)
      else
        var d := Find(s, ';', 2);
        if d == |s| then NoChar else CharRef(s, d, '#', 10)
    else if Prefix(AMP, s) then Got(['&'], s[5..])
    else if Prefix(LT, s) then Got(['<'], s[4..])
    else if Prefix(GT, s) then Got(['>'], s[4..])
    else if Prefix(QUOT, s) then Got(['\"'], s[6..])
    else if Prefix(APOS, s) then Got(['\''], s[6..])
    else Got([], s[1..])
  }

  /** TiXmlBase::GetChar. */
  function GetChar(s: Str): (r: Got)
    requires s != []
    ensures r.Got? ==> |r.rest| < |s| && |r.chars| <= 1
  {
    if s[0] == '&' then GetEntity(s) else Got([s[0]], s[1..])
  }

  /** Every character of a string, with its entities replaced. */
  function Decode(s: Str): Option<seq<char>>
    decreases |s|
  {
    if s == [] then Some([])
    else
      match GetChar(s)
      case NoChar => None
      case Got(cs, rest) =>
        match Decode(rest)
        case None => None
        case Some(more) => Some(cs + more)
  }

  /** A hexadecimal character reference begins somewhere in v. */
  predicate HasRef(v: Str) {
    v != [] && (RefHere(v) || HasRef(v[1..]))
  }

  // ----- Encoding and decoding -----

  lemma HexDigits(n: nat)
    requires n < 16
    ensures HexValue(HexDigit(n)) == Number(n) && HexDigit(n) != 'x' && HexDigit(n) != ';'
  {
  }

  lemma ControlRead(c: Chr, tail: Str)
    requires c as int < 32
    ensures GetChar(EncodeChar(c) + tail) == Got([c], tail)
  {
    var h, l := HexDigit(c as int / 16), HexDigit(c as int % 16);
    HexDigits(c as int / 16);
    HexDigits(c as int % 16);
    var s := EncodeChar(c) + tail;
    assert s[0] == '&' && s[1] == '#' && s[2] == 'x' && s[3] == h && s[4] == l && s[5] == ';';
    assert Find(s, ';', 3) == 5;
    assert DigitsBack(s, 2, 'x', 16) == Number(0);
    assert DigitsBack(s, 3, 'x', 16) == Number(c as int / 16);
    assert DigitsBack(s, 4, 'x', 16) == Number(c as int % 16 + 16 * (c as int / 16));
    assert s[6..] == tail;
  }

  lemma EntityRead(c: Chr, tail: Str)
    requires c in {'&', '<', '>', '\"', '\''}
    ensures GetChar(EncodeChar(c) + tail) == Got([c], tail)
  {
    var e := EncodeChar(c);
    var s := e + tail;
    assert s[..|e|] == e && s[|e|..] == tail && s[0] == '&' && s[1] == e[1] && s[2] == e[2];
    assert Prefix(AMP, s) ==> s[..5][1] == 'a' && s[..5][2] == 'm';
    assert Prefix(LT, s) ==> s[..4][1] == 'l';
    assert Prefix(GT, s) ==> s[..4][1] == 'g';
    assert Prefix(QUOT, s) ==> s[..6][1] == 'q';
  }

  /** An encoded character reads back as itself, whatever follows. */
  lemma CharRead(c: Chr, tail: Str)
    ensures GetChar(EncodeChar(c) + tail) == Got([c], tail)
  {
    if c as int < 32 {
      ControlRead(c, tail);
    } else if c in {'&', '<', '>', '\"', '\''} {
      EntityRead(c, tail);
    } else {
      assert ([c] + tail)[1..] == tail;
    }
  }

  /** Values without a hexadecimal reference are encoded character by character. */
  lemma {:induction false} EncodeConcat(v: Str, c: Chr)
    requires !HasRef([c] + v)
    ensures Encode([c] + v) == EncodeChar(c) + Encode(v) && !HasRef(v)
  {
    assert ([c] + v)[1..] == v;
  }

  /** Without such a reference the text comes back as it was. */
  lemma {:induction false} PlainRoundTrip(v: Str)
    requires !HasRef(v)
    ensures Decode(Encode(v)) == Some(v)
    decreases |v|
  {
    if v != [] {
      hide EncodeChar, GetChar;
      CharRead(v[0], Encode(v[1..]));
      PlainRoundTrip(v[1..]);
      EncodeStep(v);
      assert [v[0]] + v[1..] == v;
    }
  }

  lemma {:induction false} FindIs(s: Str, c: char, i: nat, k: nat)
    requires i <= k <= |s| && (k < |s| ==> s[k] == c) && forall j :: i <= j < k ==> s[j] != c
    ensures Find(s, c, i) == k
    decreases k - i
  {
    if i < k { FindIs(s, c, i + 1, k); }
  }

  /** An encoded character has a semicolon at its end or nowhere. */
  lemma SemicolonLast(c: Chr)
    requires c != ';'
    ensures var e := EncodeChar(c); forall i :: 0 <= i < |e| && e[i] == ';' ==> i == |e| - 1
  {
    HexDigits(if c as int < 32 then c as int / 16 else 0);
    HexDigits(c as int % 16);
  }

  /** A reference at the start of s, whose first semicolon is at d if there is one. */
  lemma RefGot(s: Str, d: nat)
    requires RefHere(s) && (|s| > 3 ==> 3 <= d <= |s| && d == Find(s, ';', 3))
    ensures var r := GetChar(s); r.NoChar? || (3 < |s| && d < |s| && r.rest == s[d + 1..])
  {
    hide DigitsBack;
  }

  /** A reference that is passed through comes back, if at all, as one character, and takes
      all that was passed through and the character behind it. */
  lemma RefRead(v: Str)
    requires RefHere(v)
    ensures var n := RawLength(v, 1); var r := GetChar(v[..n] + Encode(v[n..]));
      r.NoChar? || (|v[n..]| > 0 && n > 1 && r.rest == Encode(v[n..][1..]))
  {
    hide GetChar, Find, Encode, EncodeChar;
    var n := RawLength(v, 1);
    var rest := v[n..];
    var s := v[..n] + Encode(rest);
    EncodeStep(rest);
    EncodeEnd();
    EncodesSelf();
    if n == 2 {
      assert rest == ['x'] && rest[1..] == [] && s == v;
      RefGot(s, 0);
    } else if v[n] == ';' {
      FindIs(s, ';', 3, n);
      RefGot(s, n);
      assert s[n + 1..] == Encode(rest[1..]);
    } else {
      var e := EncodeChar(v[n]);
      SemicolonLast(v[n]);
      assert rest[1..] == [] && s == v[..n] + e;
      var d := if e[|e| - 1] == ';' then |s| - 1 else |s|;
      FindIs(s, ';', 3, d);
      RefGot(s, d);
    }
  }

  lemma EncodesSelf()
    ensures EncodeChar('x') == ['x'] && EncodeChar(';') == [';']
  {
  }

  /** With a hexadecimal reference in it, text comes back shorter or not at all. */
  lemma {:induction false} NoLonger(v: Str)
    ensures var d := Decode(Encode(v));
      d.None? || (|d.value| <= |v| && (HasRef(v) ==> |d.value| < |v|))
    decreases |v|
  {
    hide EncodeChar, GetChar, RefHere;
    if v != [] {
      EncodeStep(v);
      if RefHere(v) {
        var n := RawLength(v, 1);
        RefRead(v);
        NoLonger(v[n..][1..]);
      } else {
        CharRead(v[0], Encode(v[1..]));
        NoLonger(v[1..]);
      }
    }
  }

  /** For one, the text "&#x41;" comes back as the letter that it names. */
  lemma Renamed()
    ensures var v: Str := ['&', '#', 'x', '4', '1', ';']; Encode(v) == v && Decode(Encode(v)) == Some(['A'])
  {
    var v: Str := ['&', '#', 'x', '4', '1', ';'];
    assert Encode([]) == [];
    assert RefHere(v) && RawLength(v, 1) == 5;
    assert v[..5] + v[5..] == v && v[5..] == [';'];
    assert Encode([';'][1..]) == [] && Encode([';']) == [';'];
    assert Find(v, ';', 3) == 5;
    assert DigitsBack(v, 4, 'x', 16) == Number(0x41);
    assert CharRef(v, 5, 'x', 16) == Got([(0x41 % 256) as char], v[6..]);
    assert v[6..] == [] && (0x41 % 256) as char == 'A';
    assert GetChar(v) == Got(['A'], []);
    assert Decode([]) == Some([]) && ['A'] + [] == ['A'];
    assert Decode(v) == Some(['A']);
    assert Encode(v) == v[..5] + Encode(v[5..]);
  }

  /** Encoding and decoding give text back exactly when it has no hexadecimal character
      reference in it. */
  lemma RoundTripExactly(v: Str)
    ensures Decode(Encode(v)) == Some(v) <==> !HasRef(v)
  {
    if HasRef(v) {
      NoLonger(v);
    } else {
      PlainRoundTrip(v);
    }
  }
}
