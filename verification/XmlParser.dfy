/** The parsing loops of NSP/tinyxmlparser.cpp, pointer step by pointer step, against the
    reading functions. A pointer is what is left of the string. */
module XmlParser {
  import opened XmlText
  import opened XmlTree

  /** SkipWhiteSpace on a string that has not ended. */
  method SkipWhiteSpace(p0: Str) returns (p: Str)
    ensures p == Skip(p0)
  {
    p := p0;
    while p != [] && IsWhiteSpace(p[0])
      invariant Skip(p) == Skip(p0)
      decreases |p|
    {
      p := p[1..];
    }
  }

  method ReadNameAt(p0: Str) returns (r: Parse<Str>)
    ensures r == ReadName(p0)
  {
    if p0 != [] && NameStart(p0[0]) {
      var n := 0;
      assert p0[0..] == p0;
      while n < |p0| && NameChar(p0[n])
        invariant 0 <= n <= |p0| && NameLength(p0) == n + NameLength(p0[n..])
      {
        assert p0[n..][1..] == p0[n + 1..];
        n := n + 1;
      }
      return At(p0[..n], p0[n..]);
    }
    r := Stopped(Null);
  }

  // ----- Character references -----

  /** Products in 32 bits and sums in 64. */
  function Mult32(y: nat, d: nat): nat {
    y * d % 0x1_0000_0000
  }

  function Add64(x: nat, y: nat): nat {
    (x + y) % 0x1_0000_0000_0000_0000
  }

  /** The low byte of a product and a sum depends on low bytes only. */
  lemma LowByte(x: nat, y: nat, a: nat, b: nat, d: nat)
    requires x % 256 == a % 256 && y % 256 == b % 256
    ensures Add64(x, Mult32(y, d)) % 256 == Plus(a, b, d) % 256 && Mult32(y, d) % 256 == Times(b, d) % 256
  {
    var p, q := y * d, b * d;
    SameProduct(y, b, d);
    Wrap32(p);
    Sum(x, a, p % 0x1_0000_0000, q);
    Wrap64(x + p % 0x1_0000_0000);
  }

  lemma SameProduct(y: nat, b: nat, d: nat)
    requires y % 256 == b % 256
    ensures (y * d) % 256 == (b * d) % 256
  {
    assert y == y / 256 * 256 + y % 256 && b == b / 256 * 256 + b % 256;
    Multiples(y / 256, b / 256, y % 256, d);
  }

  lemma Sum(x: nat, a: nat, p: nat, q: nat)
    requires x % 256 == a % 256 && p % 256 == q % 256
    ensures (x + p) % 256 == (a + q) % 256
  {
    assert x + p == 256 * (x / 256 + p / 256) + (x % 256 + p % 256);
    assert a + q == 256 * (a / 256 + q / 256) + (x % 256 + p % 256);
    Drop(x / 256 + p / 256, x % 256 + p % 256);
    Drop(a / 256 + q / 256, x % 256 + p % 256);
  }

  lemma Multiples(p: nat, q: nat, r: nat, d: nat)
    ensures ((p * 256 + r) * d) % 256 == ((q * 256 + r) * d) % 256
  {
    assert (p * 256 + r) * d == 256 * (p * d) + r * d;
    assert (q * 256 + r) * d == 256 * (q * d) + r * d;
    Drop(p * d, r * d);
    Drop(q * d, r * d);
  }

  lemma Drop(k: nat, x: nat)
    ensures (256 * k + x) % 256 == x % 256
  {
  }

  /** Reducing by a multiple of 256 first does not change the low byte. */
  lemma Wrap32(x: nat)
    ensures x % 0x1_0000_0000 % 256 == x % 256
  {
    var q, r := x / 0x1_0000_0000, x % 0x1_0000_0000;
    assert x == 256 * (0x100_0000 * q) + r;
    Drop(0x100_0000 * q, r);
  }

  lemma Wrap64(x: nat)
    ensures x % 0x1_0000_0000_0000_0000 % 256 == x % 256
  {
    var q, r := x / 0x1_0000_0000_0000_0000, x % 0x1_0000_0000_0000_0000;
    assert x == 256 * (0x100_0000_0000_0000 * q) + r;
    Drop(0x100_0000_0000_0000 * q, r);
  }

  /** The loop of GetEntity over the digits of a reference, from the last one back, in the
      widths of the program: mult has 32 bits and ucs 64, of which the result keeps eight. */
  method CharRefAt(s: Str, d: nat, stop: char, base: nat) returns (r: Got)
    requires 0 < d < |s| && (exists k :: 0 <= k <= d - 1 && s[k] == stop) && 0 < base <= 16
    ensures r == CharRef(s, d, stop, base)
  {
    hide DigitsBack, Split, Add64, Mult32, Plus, Times;
    var ucs: nat, mult: nat, q: nat := 0, 1, d - 1;
    ghost var low: nat, pow: nat := 0, 1;
    SplitStart(s, d, stop, base);
    while s[q] != stop
      invariant 0 <= q < d && exists k :: 0 <= k <= q && s[k] == stop
      invariant mult % 256 == pow % 256 && ucs % 256 == low % 256 && Split(s, d, stop, base, q, low, pow)
      decreases q
    {
      var v := HexValue(s[q]);
      SplitNext(s, d, stop, base, q, low, pow);
      if v.NotANumber? || v.n >= base {
        return NoChar;
      }
      LowByte(ucs, mult, low, pow, v.n);
      LowByte(ucs, mult, low, pow, base);
      ucs := Add64(ucs, Mult32(mult, v.n));
      mult := Mult32(mult, base);
      low, pow := Plus(low, pow, v.n), Times(pow, base);
      q := q - 1;
    }
    SplitEnd(s, d, stop, base, q, low, pow);
    r := Got([(ucs % 256) as char], s[d + 1..]);
  }

  function Plus(low: nat, pow: nat, n: nat): nat {
    low + Times(pow, n)
  }

  function Times(a: nat, b: nat): nat {
    a * b
  }

  /** The digits behind position q make low, and those as far as q count pow times. */
  ghost predicate Split(s: Str, d: nat, stop: char, base: nat, q: nat, low: nat, pow: nat)
    requires 0 < d < |s| && q < d && exists k :: 0 <= k <= q && s[k] == stop
  {
    DigitsBack(s, d - 1, stop, base) == match DigitsBack(s, q, stop, base)
    case NotANumber => NotANumber
    case Number(n) => Number(Plus(low, pow, n))
  }

  lemma SplitStart(s: Str, d: nat, stop: char, base: nat)
    requires 0 < d < |s| && exists k :: 0 <= k <= d - 1 && s[k] == stop
    ensures Split(s, d, stop, base, d - 1, 0, 1)
  {
    hide DigitsBack;
  }

  lemma SplitNext(s: Str, d: nat, stop: char, base: nat, q: nat, low: nat, pow: nat)
    requires 0 < d < |s| && q < d && (exists k :: 0 <= k <= q && s[k] == stop)
    requires Split(s, d, stop, base, q, low, pow) && s[q] != stop
    ensures exists k :: 0 <= k <= q - 1 && s[k] == stop
    ensures var v := HexValue(s[q]);
      if v.NotANumber? || v.n >= base then DigitsBack(s, d - 1, stop, base) == NotANumber
      else Split(s, d, stop, base, q - 1, Plus(low, pow, v.n), Times(pow, base))
  {
    hide Plus, Times;
    var v := HexValue(s[q]);
    if v.Number? && v.n < base {
      var rest := DigitsBack(s, q - 1, stop, base);
      if rest.Number? { Horner(low, pow, v.n, base, rest.n); }
    }
  }

  lemma SplitEnd(s: Str, d: nat, stop: char, base: nat, q: nat, low: nat, pow: nat)
    requires 0 < d < |s| && q < d && s[q] == stop && (exists k :: 0 <= k <= q && s[k] == stop)
    requires Split(s, d, stop, base, q, low, pow)
    ensures DigitsBack(s, d - 1, stop, base) == Number(low)
  {
  }

  lemma Horner(low: nat, pow: nat, v: nat, base: nat, n: nat)
    ensures Plus(low, pow, v + base * n) == Plus(Plus(low, pow, v), Times(pow, base), n)
  {
  }

  /** GetEntity. */
  method GetEntityAt(p: Str) returns (r: Got)
    requires p != [] && p[0] == '&'
    ensures r == GetEntity(p)
  {
    if |p| > 2 && p[1] == '#' {
      if p[2] == 'x' {
        if |p| == 3 {
          return NoChar;
        }
        var q := Find(p, ';', 3);
        if q == |p| {
          return NoChar;
        }
        r := CharRefAt(p, q, 'x', 16);
      } else {
        var q := Find(p, ';', 2);
        if q == |p| {
          return NoChar;
        }
        r := CharRefAt(p, q, '#', 10);
      }
      return;
    }
    for i := 0 to 5
      invariant forall k :: 0 <= k < i ==> !Prefix(ENTITIES[k].0, p)
    {
      if Prefix(ENTITIES[i].0, p) {
        FirstEntity(p, i);
        return Got([ENTITIES[i].1], p[|ENTITIES[i].0|..]);
      }
    }
    NoEntity(p);
    r := Got([], p[1..]);
  }

  const ENTITIES: seq<(Str, char)> := [(AMP, '&'), (LT, '<'), (GT, '>'), (QUOT, '\"'), (APOS, '\'')]

  lemma FirstEntity(p: Str, i: nat)
    requires p != [] && p[0] == '&' && !(|p| > 2 && p[1] == '#') && i < 5
    requires Prefix(ENTITIES[i].0, p) && forall k :: 0 <= k < i ==> !Prefix(ENTITIES[k].0, p)
    ensures GetEntity(p) == Got([ENTITIES[i].1], p[|ENTITIES[i].0|..])
  {
    hide Prefix;
    assert i > 0 ==> !Prefix(ENTITIES[0].0, p);
    assert i > 1 ==> !Prefix(ENTITIES[1].0, p);
    assert i > 2 ==> !Prefix(ENTITIES[2].0, p);
    assert i > 3 ==> !Prefix(ENTITIES[3].0, p);
  }

  lemma NoEntity(p: Str)
    requires p != [] && p[0] == '&' && !(|p| > 2 && p[1] == '#')
    requires forall k :: 0 <= k < 5 ==> !Prefix(ENTITIES[k].0, p)
    ensures GetEntity(p) == Got([], p[1..])
  {
    hide Prefix;
    assert !Prefix(ENTITIES[0].0, p) && !Prefix(ENTITIES[1].0, p) && !Prefix(ENTITIES[2].0, p);
    assert !Prefix(ENTITIES[3].0, p) && !Prefix(ENTITIES[4].0, p);
  }

  method GetCharAt(p: Str) returns (r: Got)
    requires p != []
    ensures r == GetChar(p)
  {
    if p[0] == '&' {
      r := GetEntityAt(p);
      return;
    }
    r := Got([p[0]], p[1..]);
  }

  // ----- Text -----

  /** ReadText, keeping white space. */
  method ReadKeepAt(p0: Str, end: Chr) returns (r: Read)
    ensures r == ReadKeep(p0, end, [])
  {
    hide GetChar;
    var p, text := p0, [];
    while p != [] && p[0] != end
      invariant ReadKeep(p, end, text) == ReadKeep(p0, end, [])
      decreases |p|
    {
      var g := GetCharAt(p);
      if g.NoChar? {
        return ReadNull;
      }
      p, text := g.rest, text + g.chars;
    }
    r := if p == [] then ReadPast(text) else ReadTo(text, p[1..]);
  }

  /** ReadText, condensing white space, from a character that is none. */
  method ReadTrimAt(p0: Str, end: Chr) returns (r: Read)
    ensures r == ReadTrim(p0, end, [], false)
  {
    hide GetChar;
    var p, text, whitespace := p0, [], false;
    while p != [] && p[0] != end
      invariant ReadTrim(p, end, text, whitespace) == ReadTrim(p0, end, [], false)
      decreases |p|
    {
      if p[0] == '\r' || p[0] == '\n' {
        whitespace := true;
        p := p[1..];
      } else if IsWhiteSpace(p[0]) {
        whitespace := true;
        p := p[1..];
      } else {
        var was, space := text, whitespace;
        if whitespace {
          text := text + [' '];
          whitespace := false;
        }
        var g := GetCharAt(p);
        if g.NoChar? {
          return ReadNull;
        }
        assert was + (if space then [' '] else []) == text;
        p, text := g.rest, text + g.chars;
      }
    }
    r := if p == [] then ReadPast(text) else ReadTo(text, p[1..]);
  }

  method ParseTextAt(p: Str) returns (r: Parse<seq<char>>)
    requires p != [] && p[0] != '<' && !IsWhiteSpace(p[0])
    ensures r == ParseText(p)
  {
    hide ReadTrim;
    var q := SkipWhiteSpace(p);
    var t := ReadTrimAt(q, '<');
    match t
    case ReadNull => r := Stopped(Null);
    case ReadPast(v) => r := At(v, []);
    case ReadTo(v, rest) => r := At(v, ['<'] + rest);
  }

  // ----- Attributes -----

  method ReadBareAt(p0: Str) returns (r: Parse<seq<char>>)
    ensures r == ReadBare(p0, [])
  {
    var p, value := p0, [];
    while p != [] && !EndsValue(p[0])
      invariant ReadBare(p, value) == ReadBare(p0, [])
      decreases |p|
    {
      if p[0] == '\'' || p[0] == '\"' {
        return Stopped(Null);
      }
      value := value + [p[0]];
      p := p[1..];
    }
    r := At(value, p);
  }

  /** TiXmlAttribute::Parse. */
  method ParseAttributeAt(p0: Str) returns (r: Parse<Attr>)
    ensures r == ParseAttribute(p0)
  {
    hide ReadName, ReadKeep, ReadBare, Skip;
    var p := SkipWhiteSpace(p0);
    var name := ReadNameAt(p);
    if name.Stopped? {
      return Stopped(name.why);
    }
    p := SkipWhiteSpace(name.rest);
    if p == [] || p[0] != '=' {
      return Stopped(Null);
    }
    p := SkipWhiteSpace(p[1..]);
    if p == [] {
      return Stopped(Null);
    }
    if p[0] == '\'' || p[0] == '\"' {
      var v := ReadKeepAt(p[1..], p[0]);
      match v
      case ReadNull => return Stopped(Null);
      case ReadPast(_) => return Stopped(Fault);
      case ReadTo(value, rest) => return At(Attr(name.value, value), rest);
    }
    var v := ReadBareAt(p);
    r := if v.Stopped? then Stopped(v.why) else At(Attr(name.value, v.value), v.rest);
  }

  // ----- Elements -----

  /** TiXmlElement::Parse. */
  method ParseElementAt(p0: Str) returns (r: Parse<Node>)
    ensures r == ParseElement(p0)
    decreases |p0|, 0
  {
    hide ReadName, ParseAttribute, ReadChildren, Skip, HasName, Prefix;
    var p := SkipWhiteSpace(p0);
    if p == [] || p[0] != '<' {
      return Stopped(Null);
    }
    p := SkipWhiteSpace(p[1..]);
    var name := ReadNameAt(p);
    if name.Stopped? {
      return Stopped(name.why);
    }
    p := name.rest;
    if p == [] {
      return Stopped(Null);
    }
    var attrs: seq<Attr> := [];
    while true
      invariant p != [] && |p| < |p0| && ParseElement(p0) == ParseAttributes(name.value, attrs, p)
      decreases |p|
    {
      var t := SkipWhiteSpace(p);
      SkipsDown(p);
      if t == [] {
        return Stopped(Null);
      }
      if t[0] == '/' {
        return if |t| < 2 || t[1] != '>' then Stopped(Null) else At(Element(name.value, attrs, []), t[2..]);
      }
      if t[0] == '>' {
        var v := ReadChildrenAt(t[1..]);
        if v.Stopped? {
          return Stopped(v.why);
        }
        if Prefix(EndTag(name.value), v.rest) {
          PrefixFits(EndTag(name.value), v.rest);
          return At(Element(name.value, attrs, v.value), v.rest[|name.value| + 3..]);
        }
        return Stopped(Null);
      }
      var a := ParseAttributeAt(t);
      if a.Stopped? {
        return Stopped(a.why);
      }
      if a.rest == [] || HasName(attrs, a.value.name) {
        return Stopped(Null);
      }
      attrs, p := attrs + [a.value], a.rest;
    }
  }

  lemma SkipsDown(p: Str)
    ensures |Skip(p)| <= |p|
  {
  }

  lemma PrefixFits(e: Str, s: Str)
    requires Prefix(e, s)
    ensures |e| <= |s|
  {
  }

  /** TiXmlElement::ReadValue. */
  method ReadChildrenAt(p0: Str) returns (r: Parse<seq<Node>>)
    ensures r == ReadChildren(p0)
    decreases |p0|, 1
  {
    hide ParseElement, ParseText, Skip, Prefix, NameStart, Blank;
    if p0 == [] {
      return Stopped(Null);
    }
    var p := SkipWhiteSpace(p0);
    SkipsDown(p0);
    var done: seq<Node> := [];
    while p != [] && !Prefix(['<', '/'], p)
      invariant |p| <= |p0| && (p != [] ==> !IsWhiteSpace(p[0])) && ReadChildren(p0) == MoreChildren(done, p)
      decreases |p|
    {
      var rest: Str;
      if p[0] != '<' {
        var t := ParseTextAt(p);
        if t.Stopped? {
          return Stopped(t.why);
        }
        rest := t.rest;
        if rest == [] {
          return Stopped(Null);
        }
        if !Blank(t.value) {
          done := done + [Text(t.value)];
        }
      } else if |p| > 1 && NameStart(p[1]) {
        var e := ParseElementAt(p);
        if e.Stopped? {
          return Stopped(e.why);
        }
        rest := e.rest;
        if rest == [] {
          return Stopped(Null);
        }
        done := done + [e.value];
      } else {
        return Stopped(OtherNode);
      }
      p := SkipWhiteSpace(rest);
      SkipsDown(rest);
    }
    r := At(done, p);
  }
}
