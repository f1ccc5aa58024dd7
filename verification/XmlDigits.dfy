/** The references and the marks of XML text in their own characters (NSP/tinyxml.cpp,
    NSP/tinyxmlparser.cpp): every spelling of a character's number, the five named entities,
    white space, names, and the tags. */
module XmlDigits {
  import opened XmlText
  import opened XmlTree

  // ----- Spellings of a number -----

  const UPPER: seq<char> := "0123456789ABCDEF"
  const LOWER: seq<char> := "0123456789abcdef"

  predicate Base(base: nat) {
    base == 10 || base == 16
  }

  /** The last digit of a number, and the number that the digits before it make. */
  function Last(n: nat, base: nat): (k: nat)
    requires Base(base)
    ensures k < base
  {
    if base == 16 then n % 16 else n % 10
  }

  function Rest(n: nat, base: nat): (k: nat)
    requires Base(base)
    ensures n == Last(n, base) + base * k && (n > 0 ==> k < n)
  {
    if base == 16 then n / 16 else n / 10
  }

  /** A number in decimal or hexadecimal digits, with upper-case or lower-case letters or
      both, and with any number of zeros in front. */
  ghost predicate Spells(ds: seq<char>, base: nat, n: nat)
    requires Base(base)
  {
    if ds == [] then n == 0
    else
      var d := ds[|ds| - 1];
      (d == UPPER[Last(n, base)] || d == LOWER[Last(n, base)]) && Spells(ds[..|ds| - 1], base, Rest(n, base))
  }

  /** The digits of a number, at least the given number of them. */
  function Digits(n: nat, base: nat, least: nat, letters: seq<char>): seq<char>
    requires Base(base) && |letters| == 16
    decreases n, least
  {
    if n == 0 && least == 0 then []
    else Digits(Rest(n, base), base, if least > 0 then least - 1 else 0, letters) + [letters[Last(n, base)]]
  }

  lemma SpellsMore(ds: seq<char>, base: nat, n: nat, d: char)
    requires Base(base) && Spells(ds, base, Rest(n, base)) && (d == UPPER[Last(n, base)] || d == LOWER[Last(n, base)])
    ensures Spells(ds + [d], base, n)
  {
    hide UPPER, LOWER;
    assert (ds + [d])[..|ds|] == ds;
  }

  lemma {:induction false} DigitsSpell(n: nat, base: nat, least: nat, letters: seq<char>)
    requires Base(base) && (letters == UPPER || letters == LOWER)
    ensures Spells(Digits(n, base, least, letters), base, n)
    decreases n, least
  {
    hide Spells;
    if n > 0 || least > 0 {
      var less := if least > 0 then least - 1 else 0;
      DigitsSpell(Rest(n, base), base, less, letters);
      SpellsMore(Digits(Rest(n, base), base, less, letters), base, n, letters[Last(n, base)]);
    } else {
      SpellsNothing(base);
    }
  }

  lemma SpellsNothing(base: nat)
    requires Base(base)
    ensures Spells([], base, 0)
  {
  }

  lemma DigitOf(d: char, k: nat)
    requires k < 16 && (d == UPPER[k] || d == LOWER[k])
    ensures HexValue(d) == Number(k) && d != 'x' && d != ';' && d != '#'
  {
  }

  lemma DigitIn(d: char, base: nat)
    requires Base(base) && HexValue(d).Number? && HexValue(d).n < base
    ensures d in UPPER[..base] || d in LOWER[..base]
  {
    var k := HexValue(d).n;
    DigitAt(d);
    assert UPPER[..base][k] in UPPER[..base] && LOWER[..base][k] in LOWER[..base];
  }

  lemma DigitAt(d: char)
    requires HexValue(d).Number?
    ensures HexValue(d).n < 16 && (d == UPPER[HexValue(d).n] || d == LOWER[HexValue(d).n])
  {
  }

  lemma LastSpelt(ds: seq<char>, base: nat, n: nat)
    requires Base(base) && Spells(ds, base, n) && ds != []
    ensures var m := |ds| - 1;
      && Spells(ds[..m], base, Rest(n, base)) && HexValue(ds[m]) == Number(Last(n, base)) && Last(n, base) < base
      && n == Last(n, base) + base * Rest(n, base) && ds[m] != 'x' && ds[m] != ';' && ds[m] != '#'
  {
    hide HexValue;
    DigitOf(ds[|ds| - 1], Last(n, base));
  }

  lemma SliceFront(s: seq<char>, i: nat, ds: seq<char>)
    requires i + |ds| <= |s| && s[i..i + |ds|] == ds && ds != []
    ensures var m := |ds| - 1; s[i..i + m] == ds[..m] && s[i + m] == ds[m]
  {
    var m := |ds| - 1;
    assert s[i..i + |ds|][..m] == s[i..i + m] && s[i..i + |ds|][m] == s[i + m];
  }

  /** The digits of a reference that begins at position i, read from the last one back. */
  lemma {:induction false} SpellingRead(s: Str, i: nat, ds: seq<char>, stop: char, base: nat, n: nat)
    requires 0 < i && i + |ds| <= |s| && s[i - 1] == stop && s[i..i + |ds|] == ds && (stop == 'x' || stop == '#')
    requires Base(base) && Spells(ds, base, n)
    ensures DigitsBack(s, i + |ds| - 1, stop, base) == Number(n)
    ensures forall k :: 0 <= k < |ds| ==> ds[k] != ';' && ds[k] != 'x'
    decreases |ds|
  {
    if ds != [] {
      hide HexValue, Spells;
      var m := |ds| - 1;
      SliceFront(s, i, ds);
      LastSpelt(ds, base, n);
      SpellingRead(s, i, ds[..m], stop, base, Rest(n, base));
    }
  }

  /** A hexadecimal reference names the character of its number, whichever letters it is
      spelt with, and takes nothing of what follows it (section 4.1 of XML 1.0; the program
      keeps the low byte of a larger number). */
  lemma HexReference(ds: Str, n: nat, tail: Str)
    requires Spells(ds, 16, n)
    ensures GetEntity(['&', '#', 'x'] + ds + [';'] + tail) == Got([(n % 256) as char], tail)
  {
    hide DigitsBack;
    var s := ['&', '#', 'x'] + ds + [';'] + tail;
    assert s[0] == '&' && s[1] == '#' && s[2] == 'x' && s[3..3 + |ds|] == ds && s[3 + |ds|] == ';' && |s| > 3;
    SpellingRead(s, 3, ds, 'x', 16, n);
    forall j | 3 <= j < 3 + |ds| ensures s[j] != ';' {
      assert s[j] == ds[j - 3];
    }
    FindIs(s, ';', 3, 3 + |ds|);
    assert s[3 + |ds| + 1..] == tail;
  }

  lemma DecimalReference(ds: Str, n: nat, tail: Str)
    requires Spells(ds, 10, n)
    ensures GetEntity(['&', '#'] + ds + [';'] + tail) == Got([(n % 256) as char], tail)
  {
    hide DigitsBack;
    var s := ['&', '#'] + ds + [';'] + tail;
    assert s[0] == '&' && s[1] == '#' && s[2..2 + |ds|] == ds && s[2 + |ds|] == ';' && |s| > 2;
    SpellingRead(s, 2, ds, '#', 10, n);
    forall j | 2 <= j < 2 + |ds| ensures s[j] != ';' && s[j] != 'x' {
      assert s[j] == ds[j - 2];
    }
    FindIs(s, ';', 2, 2 + |ds|);
    assert s[2 + |ds| + 1..] == tail;
  }

  lemma {:induction false} SpeltChars(ds: seq<char>, base: nat, n: nat)
    requires Base(base) && Spells(ds, base, n)
    ensures CString(ds)
    decreases |ds|
  {
    if ds != [] {
      hide Spells, HexValue;
      var m := |ds| - 1;
      LastSpelt(ds, base, n);
      DigitChar(ds[m]);
      SpeltChars(ds[..m], base, Rest(n, base));
      assert forall i :: 0 <= i < m ==> ds[i] == ds[..m][i];
    }
  }

  lemma DigitChar(d: char)
    requires HexValue(d).Number?
    ensures 0 < d as int < 256
  {
  }

  /** So every character can be named by its number in hexadecimal digits of either case and
      in decimal digits, with any number of zeros in front. */
  lemma Named(c: Chr, least: nat, tail: Str)
    ensures CString(Digits(c as int, 16, least, UPPER)) && CString(Digits(c as int, 16, least, LOWER))
    ensures CString(Digits(c as int, 10, least, UPPER))
    ensures GetEntity(['&', '#', 'x'] + AsStr(Digits(c as int, 16, least, UPPER)) + [';'] + tail) == Got([c], tail)
    ensures GetEntity(['&', '#', 'x'] + AsStr(Digits(c as int, 16, least, LOWER)) + [';'] + tail) == Got([c], tail)
    ensures GetEntity(['&', '#'] + AsStr(Digits(c as int, 10, least, UPPER)) + [';'] + tail) == Got([c], tail)
  {
    hide GetEntity, Digits, Spells;
    var n := c as int;
    DigitsSpell(n, 16, least, UPPER);
    DigitsSpell(n, 16, least, LOWER);
    DigitsSpell(n, 10, least, UPPER);
    SpeltChars(Digits(n, 16, least, UPPER), 16, n);
    SpeltChars(Digits(n, 16, least, LOWER), 16, n);
    SpeltChars(Digits(n, 10, least, UPPER), 10, n);
    HexReference(AsStr(Digits(n, 16, least, UPPER)), n, tail);
    HexReference(AsStr(Digits(n, 16, least, LOWER)), n, tail);
    DecimalReference(AsStr(Digits(n, 10, least, UPPER)), n, tail);
    assert (n % 256) as char == c;
  }

  /** What stands in the place of a digit and is none makes the whole text unreadable. */
  lemma {:induction false} NotRead(s: Str, i: nat, k: nat, q: nat, stop: char, base: nat)
    requires 0 < i <= k <= q < |s| && s[i - 1] == stop && forall j :: i <= j <= q ==> s[j] != stop
    requires Base(base) && s[k] !in UPPER[..base] && s[k] !in LOWER[..base]
    ensures DigitsBack(s, q, stop, base) == NotANumber
    decreases q
  {
    hide HexValue;
    if q == k {
      var v := HexValue(s[k]);
      if v.Number? && v.n < base { DigitIn(s[k], base); }
    } else {
      NotRead(s, i, k, q - 1, stop, base);
    }
  }

  /** So is a hexadecimal reference, whose text has no x in it, with a character that is no
      hexadecimal digit, and a decimal one with a character that is no decimal digit. */
  lemma BadReference(ds: Str, k: nat, tail: Str)
    requires k < |ds| && ';' !in ds
    ensures 'x' !in ds && ds[k] !in UPPER && ds[k] !in LOWER ==> GetEntity(['&', '#', 'x'] + ds + [';'] + tail) == NoChar
    ensures '#' !in ds && ds[0] != 'x' && ds[k] !in UPPER[..10] ==> GetEntity(['&', '#'] + ds + [';'] + tail) == NoChar
  {
    hide DigitsBack;
    if 'x' !in ds && ds[k] !in UPPER && ds[k] !in LOWER {
      var s := ['&', '#', 'x'] + ds + [';'] + tail;
      assert s[0] == '&' && s[1] == '#' && s[2] == 'x' && s[3 + |ds|] == ';' && |s| > 3;
      assert forall j :: 3 <= j < 3 + |ds| ==> s[j] == ds[j - 3];
      FindIs(s, ';', 3, 3 + |ds|);
      assert UPPER[..16] == UPPER && LOWER[..16] == LOWER;
      NotRead(s, 3, 3 + k, 2 + |ds|, 'x', 16);
    }
    if '#' !in ds && ds[0] != 'x' && ds[k] !in UPPER[..10] {
      var s := ['&', '#'] + ds + [';'] + tail;
      assert s[0] == '&' && s[1] == '#' && s[2] == ds[0] && s[2 + |ds|] == ';' && |s| > 2;
      assert forall j :: 2 <= j < 2 + |ds| ==> s[j] == ds[j - 2];
      FindIs(s, ';', 2, 2 + |ds|);
      assert UPPER[..10] == LOWER[..10];
      NotRead(s, 2, 2 + k, 1 + |ds|, '#', 10);
    }
  }

  // ----- Named entities -----

  const NAMED: map<char, seq<char>> := map['&' := "&amp;", '<' := "&lt;", '>' := "&gt;", '\"' := "&quot;", '\'' := "&apos;"]

  /** The five named entities (section 4.6 of XML 1.0) are written and read by their names. */
  lemma NamedEntity(c: Chr, tail: Str)
    requires c in NAMED
    ensures EncodeChar(c) == NAMED[c] && GetEntity(EncodeChar(c) + tail) == Got([c], tail)
  {
    hide GetEntity;
    CharRead(c, tail);
    assert (EncodeChar(c) + tail)[0] == EncodeChar(c)[0] == '&';
  }

  /** Other characters are written as they are, or by number in two upper-case digits if they
      are control characters. */
  lemma OtherWritten(c: Chr)
    requires c !in NAMED
    ensures c as int >= 32 ==> EncodeChar(c) == [c]
    ensures c as int < 32 ==> EncodeChar(c) == ['&', '#', 'x'] + Digits(c as int, 16, 2, UPPER) + [';']
  {
    var n := c as int;
    if n < 32 {
      assert Rest(n, 16) == n / 16 && Rest(n / 16, 16) == 0 && Digits(0, 16, 0, UPPER) == [];
      assert Digits(n / 16, 16, 1, UPPER) == [] + [UPPER[n / 16 % 16]];
      assert Digits(n, 16, 2, UPPER) == [UPPER[n / 16 % 16]] + [UPPER[n % 16]];
      UpperDigit(n / 16);
      UpperDigit(n % 16);
    }
  }

  lemma UpperDigit(k: nat)
    requires k < 16
    ensures HexDigit(k) == UPPER[k]
  {
  }

  // ----- White space and names -----

  /** White space is the six characters of the C locale, and a name is ASCII letters, digits,
      four marks and everything above ASCII, and begins with none of the digits and only one
      of the marks. */
  lemma Classes(c: Chr)
    ensures IsWhiteSpace(c) <==> c in [' ', '\t', '\n', '\r', 11 as char, 12 as char]
    ensures c as int < 127 ==> (NameChar(c) <==>
      'A' <= c <= 'Z' || 'a' <= c <= 'z' || '0' <= c <= '9' || c in ['_', '-', '.', ':'])
    ensures c as int < 127 ==> (NameStart(c) <==> 'A' <= c <= 'Z' || 'a' <= c <= 'z' || c == '_')
    ensures c as int >= 127 ==> NameChar(c) && NameStart(c)
  {
  }

  // ----- Values without quotes -----

  /** A character that ends an attribute value without quotes. */
  predicate EndsBare(c: char) {
    c == '>' || c == '/' || c in [' ', '\t', '\n', '\r', 11 as char, 12 as char]
  }

  /** Such a value is read, as it stands, up to the first white space, slash or greater-than
      sign, which is left; a quote in it is an error, and a reference is none. */
  lemma {:induction false} BareRead(v: Str, tail: Str, acc: seq<char>)
    requires forall c <- v :: !EndsBare(c)
    ensures '\'' !in v && '\"' !in v && (tail == [] || EndsBare(tail[0])) ==> ReadBare(v + tail, acc) == At(acc + v, tail)
    ensures '\'' in v || '\"' in v ==> ReadBare(v + tail, acc) == Stopped(Null)
    decreases |v|
  {
    if v == [] {
      assert v + tail == tail && acc + v == acc;
    } else {
      assert (v + tail)[0] == v[0] && v[0] in v && (v + tail)[1..] == v[1..] + tail;
      assert forall c :: c in v <==> c == v[0] || c in v[1..];
      BareRead(v[1..], tail, acc + [v[0]]);
      assert acc + [v[0]] + v[1..] == acc + v;
    }
  }

  // ----- Tags -----

  lemma PlainEncoded(v: Str)
    requires |v| == 1 && 'a' <= v[0] <= 'z'
    ensures Encode(v) == v
  {
    assert v[1..] == [] && Encode([]) == [];
    EncodeStep(v);
  }

  /** The printed form of two small elements. */
  lemma SmallPrinted()
    ensures var n := Element(['a'], [Attr(['b'], ['c'])], [Text(['d'])]); Printable(n) && Print(n) == "<a b=\"c\">d</a>"
  {
    hide Encode, PrintAttr;
    PlainEncoded(['d']);
    AttributePrinted();
    OneAttribute(Attr(['b'], ['c']), "b=\"c\"");
    assert PrintAll([Text(['d'])][1..]) == [] && PrintAll([Text(['d'])]) == ['d'] + [];
  }

  lemma AttributePrinted()
    ensures PrintAttr(Attr(['b'], ['c'])) == "b=\"c\"" && PrintAttr(Attr(['b'], ['\"'])) == "b='&quot;'"
  {
    hide Encode;
    PlainEncoded(['b']);
    PlainEncoded(['c']);
    QuoteEncoded();
  }

  lemma EmptyPrinted()
    ensures var n := Element(['a'], [Attr(['b'], ['\"'])], []); Printable(n) && Print(n) == "<a b='&quot;' />"
  {
    hide Encode, PrintAttr, PrintAttrs, Print;
    AttributePrinted();
    var a := Attr(['b'], ['\"']);
    OneAttribute(a, "b='&quot;'");
    EmptyElement(['a'], [a], " b='&quot;'");
    assert "<" + "a" + " b='&quot;'" + " />" == "<a b='&quot;' />";
  }

  lemma EmptyElement(name: Str, attrs: seq<Attr>, s: seq<char>)
    requires (forall a <- attrs :: CString(a.value)) && PrintAttrs(attrs) == s
    ensures var n := Element(name, attrs, []); Printable(n) && Print(n) == "<" + name + s + " />"
  {
    hide PrintAttrs, CString;
  }

  lemma QuoteEncoded()
    ensures Encode(['\"']) == "&quot;"
  {
    assert ['\"'][1..] == [] && Encode([]) == [];
    EncodeStep(['\"']);
  }

  lemma OneAttribute(a: Attr, s: seq<char>)
    requires CString(a.value) && PrintAttr(a) == s
    ensures PrintAttrs([a]) == " " + s
  {
    assert PrintAttrs([a][1..]) == [];
  }
}
