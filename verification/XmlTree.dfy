/** Element trees in TinyXML: the stream printer and the parser (NSP/tinyxml.cpp,
    NSP/tinyxmlparser.cpp). Elements and text only; white space is condensed. */
module XmlTree {
  import opened XmlText
  import opened Sequences

  datatype Attr = Attr(name: Str, value: seq<char>)
  datatype Node = Text(value: seq<char>) | Element(name: Str, attrs: seq<Attr>, children: seq<Node>)

  /** Why parsing stops: the null pointer after an error, a read behind the terminator, or a
      node that is neither element nor text. */
  datatype Stop = Null | Fault | OtherNode

  /** Where the parser stands after a part of a document. */
  datatype Parse<+T> = Stopped(why: Stop) | At(value: T, rest: Str)

  // ----- White space, names and text -----

  function Skip(s: Str): (r: Str)
    ensures |r| <= |s| && (r != [] ==> !IsWhiteSpace(r[0]))
  {
    if s != [] && IsWhiteSpace(s[0]) then Skip(s[1..]) else s
  }

  predicate NameChar(c: char) {
    IsAlphaNum(c) || c == '_' || c == '-' || c == '.' || c == ':'
  }

  predicate NameStart(c: char) {
    IsAlpha(c) || c == '_'
  }

  function NameLength(s: Str): (n: nat)
    ensures n <= |s| && (forall i :: 0 <= i < n ==> NameChar(s[i])) && (n < |s| ==> !NameChar(s[n]))
  {
    if s != [] && NameChar(s[0]) then 1 + NameLength(s[1..]) else 0
  }

  /** ReadName. */
  function ReadName(s: Str): (r: Parse<Str>)
    ensures r.At? ==> |r.rest| < |s|
  {
    if s != [] && NameStart(s[0]) then At(s[..NameLength(s)], s[NameLength(s)..]) else Stopped(Null)
  }

  /** ReadText: null, or just behind the terminator, or behind the end tag. */
  datatype Read = ReadNull | ReadPast(text: seq<char>) | ReadTo(text: seq<char>, rest: Str)

  /** Keeping white space. */
  function ReadKeep(s: Str, end: Chr, acc: seq<char>): (r: Read)
    ensures r.ReadTo? ==> |r.rest| < |s|
    decreases |s|
  {
    if s == [] then ReadPast(acc)
    else if s[0] == end then ReadTo(acc, s[1..])
    else
      match GetChar(s)
      case NoChar => ReadNull
      case Got(cs, rest) => ReadKeep(rest, end, acc + cs)
  }

  /** Condensing it: space says whether some was skipped since the last character. */
  function ReadTrim(s: Str, end: Chr, acc: seq<char>, space: bool): (r: Read)
    ensures r.ReadTo? ==> |r.rest| < |s| && (s[0] != end ==> |r.rest| + 1 < |s|)
    decreases |s|
  {
    if s == [] then ReadPast(acc)
    else if s[0] == end then ReadTo(acc, s[1..])
    else if IsWhiteSpace(s[0]) then ReadTrim(s[1..], end, acc, true)
    else
      match GetChar(s)
      case NoChar => ReadNull
      case Got(cs, rest) => ReadTrim(rest, end, acc + (if space then [' '] else []) + cs, false)
  }

  predicate Blank(v: seq<char>) {
    forall c <- v :: IsWhiteSpace(c)
  }

  /** TiXmlText::Parse, on text that is no CDATA section. */
  function ParseText(s: Str): (r: Parse<seq<char>>)
    requires s != [] && s[0] != '<' && !IsWhiteSpace(s[0])
    ensures r.At? ==> |r.rest| < |s|
  {
    match ReadTrim(Skip(s), '<', [], false)
    case ReadNull => Stopped(Null)
    case ReadPast(v) => At(v, [])
    case ReadTo(v, rest) => At(v, ['<'] + rest)
  }

  // ----- Attributes -----

  predicate EndsValue(c: char) {
    IsWhiteSpace(c) || c == '/' || c == '>'
  }

  /** An attribute value without quotes. */
  function ReadBare(s: Str, acc: seq<char>): (r: Parse<seq<char>>)
    ensures r.At? ==> |r.rest| <= |s|
  {
    if s == [] || EndsValue(s[0]) then At(acc, s)
    else if s[0] == '\'' || s[0] == '\"' then Stopped(Null)
    else ReadBare(s[1..], acc + [s[0]])
  }

  function ReadQuoted(s: Str, quote: Chr): (r: Parse<seq<char>>)
    ensures r.At? ==> |r.rest| < |s|
  {
    match ReadKeep(s, quote, [])
    case ReadNull => Stopped(Null)
    case ReadPast(_) => Stopped(Fault)
    case ReadTo(v, rest) => At(v, rest)
  }

  /** The value behind the equals sign. */
  function ReadValueOf(s: Str): (r: Parse<seq<char>>)
    ensures r.At? ==> |r.rest| <= |s|
  {
    var t := Skip(s);
    if t == [] then Stopped(Null)
    else if t[0] == '\'' || t[0] == '\"' then ReadQuoted(t[1..], t[0])
    else ReadBare(t, [])
  }

  /** TiXmlAttribute::Parse. */
  function ParseAttribute(s: Str): (r: Parse<Attr>)
    ensures r.At? ==> |r.rest| < |s|
  {
    match ReadName(Skip(s))
    case Stopped(w) => Stopped(w)
    case At(name, rest) =>
      var t := Skip(rest);
      if t == [] || t[0] != '=' then Stopped(Null)
      else
        match ReadValueOf(t[1..])
        case Stopped(w) => Stopped(w)
        case At(v, rest') => At(Attr(name, v), rest')
  }

  // ----- Reading behind the terminator -----

  /** The first characters of the pieces that are read one by one, a character or a
      reference each. */
  function Heads(s: Str): seq<char>
    decreases |s|
  {
    if s == [] then []
    else
      match GetChar(s)
      case NoChar => [s[0]]
      case Got(_, rest) => [s[0]] + Heads(rest)
  }

  lemma {:induction false} KeepPastExactly(s: Str, quote: Chr, acc: seq<char>)
    ensures ReadKeep(s, quote, acc).ReadPast? <==> Decode(s).Some? && quote !in Heads(s)
    decreases |s|
  {
    hide GetChar;
    if s != [] {
      var g := GetChar(s);
      if g.Got? && s[0] != quote { KeepPastExactly(g.rest, quote, acc + g.chars); }
    }
  }

  /** What stands behind the opening quote of an attribute's value, if there is one. */
  function Quoted(s: Str): Option<(Chr, Str)> {
    match ReadName(Skip(s))
    case Stopped(_) => None
    case At(_, rest) =>
      var t := Skip(rest);
      if t == [] || t[0] != '=' then None
      else
        var v := Skip(t[1..]);
        if v == [] || (v[0] != '\'' && v[0] != '\"') then None else Some((v[0], v[1..]))
  }

  /** An attribute is read beyond the terminator exactly if its value has an opening quote,
      every reference from there on can be read, and no piece that is read is a closing
      quote. */
  lemma AttributeFaults(s: Str)
    ensures ParseAttribute(s) == Stopped(Fault) <==>
      Quoted(s).Some? && var (quote, u) := Quoted(s).value; Decode(u).Some? && quote !in Heads(u)
  {
    hide Decode, Heads, ReadKeep, Skip;
    if Quoted(s).Some? {
      var (quote, u) := Quoted(s).value;
      KeepPastExactly(u, quote, []);
    }
    var r := ReadName(Skip(s));
    if r.At? && Skip(r.rest) != [] {
      NoFault(Skip(Skip(r.rest)[1..]), []);
    }
  }

  lemma {:induction false} NoFault(s: Str, acc: seq<char>)
    ensures ReadBare(s, acc) != Stopped(Fault)
    decreases |s|
  {
    if s != [] && !EndsValue(s[0]) { NoFault(s[1..], acc + [s[0]]); }
  }

  /** Text without numeric references. */
  predicate NoNumeric(s: Str) {
    forall i :: 0 <= i < |s| - 1 ==> !(s[i] == '&' && s[i + 1] == '#')
  }

  /** In such text every piece can be read, and a quote is never inside one: it is read
      beyond the terminator exactly if the closing quote is missing. */
  lemma {:induction false} PlainHeads(s: Str, quote: Chr)
    requires NoNumeric(s) && (quote == '\'' || quote == '\"')
    ensures Decode(s).Some? && (quote in Heads(s) <==> quote in s)
    decreases |s|
  {
    if s != [] {
      PlainPiece(s, quote);
      var rest := GetChar(s).rest;
      var k := |s| - |rest|;
      assert s == s[..k] + rest;
      PlainHeads(rest, quote);
    }
  }

  lemma PlainPiece(s: Str, quote: Chr)
    requires s != [] && NoNumeric(s) && (quote == '\'' || quote == '\"')
    ensures GetChar(s).Got? && NoNumeric(GetChar(s).rest)
    ensures var k := |s| - |GetChar(s).rest|; 0 < k <= |s| && GetChar(s).rest == s[k..] && (quote in s[..k] <==> s[0] == quote)
  {
    hide CharRef, Find;
    var rest := GetChar(s).rest;
    var k := |s| - |rest|;
    if |s| > 1 { assert !(s[0] == '&' && s[1] == '#'); }
    assert rest == s[k..] by { PieceIs(s); }
    PieceIs(s);
    assert forall i :: 0 <= i < |rest| ==> rest[i] == s[k + i];
  }

  lemma PieceIs(s: Str)
    requires s != [] && !(|s| > 1 && s[0] == '&' && s[1] == '#')
    ensures GetChar(s).Got?
    ensures var k := |s| - |GetChar(s).rest|;
      && 0 < k <= |s| && GetChar(s).rest == s[k..]
      && s[..k] in {[s[0]], AMP, LT, GT, QUOT, APOS}
  {
    hide CharRef, Find;
    var k := |s| - |GetChar(s).rest|;
    assert k == 1 ==> s[..k] == [s[0]];
  }

  lemma ValueFaults(u: Str, quote: Chr)
    requires NoNumeric(u) && (quote == '\'' || quote == '\"')
    ensures ReadQuoted(u, quote) == Stopped(Fault) <==> quote !in u
  {
    hide Decode, Heads, ReadKeep;
    KeepPastExactly(u, quote, []);
    PlainHeads(u, quote);
  }

  const SWALLOWED: Str := ['&', '#', 'x', '\"', 'x', '4', '1', ';']

  /** A quote inside a numeric reference does not end a value: digits are read back only as
      far as the last x. */
  lemma QuoteSwallowed()
    ensures '\"' in SWALLOWED && ReadQuoted(SWALLOWED, '\"') == Stopped(Fault)
  {
    var s := SWALLOWED;
    assert s[3] == '\"';
    assert Find(s, ';', 3) == 7;
    assert DigitsBack(s, 6, 'x', 16) == Number(0x41);
    assert CharRef(s, 7, 'x', 16) == Got([(0x41 % 256) as char], s[8..]);
    assert s[8..] == [] && GetChar(s) == Got(['A'], []);
    assert Decode([]) == Some([]) && Heads([]) == [];
    assert Decode(s).Some? && Heads(s) == ['&'];
    KeepPastExactly(s, '\"', []);
  }

  // ----- Elements -----

  predicate HasName(attrs: seq<Attr>, name: Str) {
    exists a <- attrs :: a.name == name
  }

  function EndTag(name: Str): (s: Str)
    ensures |s| == |name| + 3
  {
    ['<', '/'] + name + ['>']
  }

  /** TiXmlElement::Parse. */
  function ParseElement(s: Str): (r: Parse<Node>)
    ensures r.At? ==> |r.rest| < |s|
    decreases |s|, 0
  {
    var t := Skip(s);
    if t == [] || t[0] != '<' then Stopped(Null)
    else
      match ReadName(Skip(t[1..]))
      case Stopped(w) => Stopped(w)
      case At(name, rest) => if rest == [] then Stopped(Null) else ParseAttributes(name, [], rest)
  }

  /** Its loop over attributes. */
  function ParseAttributes(name: Str, attrs: seq<Attr>, s: Str): (r: Parse<Node>)
    ensures r.At? ==> |r.rest| < |s|
    decreases |s|, 0
  {
    var t := Skip(s);
    if t == [] then Stopped(Null)
    else if t[0] == '/' then
      if |t| < 2 || t[1] != '>' then Stopped(Null) else At(Element(name, attrs, []), t[2..])
    else if t[0] == '>' then
      match ReadChildren(t[1..])
      case Stopped(w) => Stopped(w)
      case At(children, rest) =>
        if Prefix(EndTag(name), rest) then At(Element(name, attrs, children), rest[|name| + 3..]) else Stopped(Null)
    else
      match ParseAttribute(t)
      case Stopped(w) => Stopped(w)
      case At(a, rest) =>
        if rest == [] || HasName(attrs, a.name) then Stopped(Null) else ParseAttributes(name, attrs + [a], rest)
  }

  /** TiXmlElement::ReadValue. */
  function ReadChildren(s: Str): (r: Parse<seq<Node>>)
    ensures r.At? ==> |r.rest| <= |s|
    decreases |s|, 2
  {
    if s == [] then Stopped(Null) else MoreChildren([], Skip(s))
  }

  /** Its loop, at what follows white space. */
  function MoreChildren(done: seq<Node>, t: Str): (r: Parse<seq<Node>>)
    requires t != [] ==> !IsWhiteSpace(t[0])
    ensures r.At? ==> |r.rest| <= |t|
    decreases |t|, 1
  {
    if t == [] || Prefix(['<', '/'], t) then At(done, t)
    else if t[0] != '<' then
      match ParseText(t)
      case Stopped(w) => Stopped(w)
      case At(v, rest) =>
        if rest == [] then Stopped(Null) else MoreChildren(if Blank(v) then done else done + [Text(v)], Skip(rest))
    else if |t| > 1 && NameStart(t[1]) then
      match ParseElement(t)
      case Stopped(w) => Stopped(w)
      case At(e, rest) => if rest == [] then Stopped(Null) else MoreChildren(done + [e], Skip(rest))
    else Stopped(OtherNode)
  }

  // ----- Printing -----

  /** Characters other than the terminator. */
  predicate CString(v: seq<char>) {
    forall i :: 0 <= i < |v| ==> 0 < v[i] as int < 256
  }

  /** And no hexadecimal character reference. */
  predicate ValueOk(v: seq<char>) {
    CString(v) && !HasRef(AsStr(v))
  }

  function AsStr(v: seq<char>): Str
    requires CString(v)
  {
    v
  }

  /** Text that white space condensing leaves alone: not blank, and no spaces at either end
      or next to each other. */
  predicate TextOk(v: seq<char>) {
    && ValueOk(v) && !Blank(v) && v[0] != ' ' && v[|v| - 1] != ' '
    && forall i :: 0 <= i < |v| - 1 ==> !(v[i] == ' ' && v[i + 1] == ' ')
  }

  predicate NameOk(name: Str) {
    name != [] && NameStart(name[0]) && forall c <- name :: NameChar(c)
  }

  predicate AttrsOk(attrs: seq<Attr>) {
    && (forall a <- attrs :: NameOk(a.name) && ValueOk(a.value))
    && forall i, j :: 0 <= i < j < |attrs| ==> attrs[i].name != attrs[j].name
  }

  /** The trees that the printer prints: all of them, as long as no value has a terminator
      in it. */
  predicate Printable(n: Node) {
    match n
    case Text(v) => CString(v)
    case Element(_, attrs, children) => (forall a <- attrs :: CString(a.value)) && AllPrintable(children)
  }

  predicate AllPrintable(ns: seq<Node>) {
    ns == [] || (Printable(ns[0]) && AllPrintable(ns[1..]))
  }

  /** The trees that print and parse give back. */
  predicate Legal(n: Node): (r: bool)
    ensures r ==> Printable(n)
  {
    match n
    case Text(v) => TextOk(v)
    case Element(name, attrs, children) => NameOk(name) && AttrsOk(attrs) && AllLegal(children)
  }

  predicate AllLegal(ns: seq<Node>): (r: bool)
    ensures r ==> AllPrintable(ns)
  {
    ns == [] || (Legal(ns[0]) && AllLegal(ns[1..]) && (|ns| > 1 ==> !(ns[0].Text? && ns[1].Text?)))
  }

  /** TiXmlAttribute::Print. */
  function PrintAttr(a: Attr): Str
    requires CString(a.value)
  {
    var quote: Chr := if '\"' in a.value then '\'' else '\"';
    Encode(a.name) + ['=', quote] + Encode(AsStr(a.value)) + [quote]
  }

  function PrintAttrs(attrs: seq<Attr>): Str
    requires forall a <- attrs :: CString(a.value)
  {
    if attrs == [] then [] else [' '] + PrintAttr(attrs[0]) + PrintAttrs(attrs[1..])
  }

  /** What the stream printer makes of a tree. */
  function Print(n: Node): (s: Str)
    requires Printable(n)
    decreases n, 0
  {
    match n
    case Text(v) => Encode(AsStr(v))
    case Element(name, attrs, children) =>
      ['<'] + name + PrintAttrs(attrs)
      + if children == [] then [' ', '/', '>'] else ['>'] + PrintAll(children) + EndTag(name)
  }

  function PrintAll(ns: seq<Node>): Str
    requires AllPrintable(ns)
    decreases ns, 1
  {
    if ns == [] then [] else Print(ns[0]) + PrintAll(ns[1..])
  }

  // ----- Reading what was printed: characters -----

  lemma NoSkip(s: Str)
    requires s != [] && !IsWhiteSpace(s[0])
    ensures Skip(s) == s
  {
  }

  lemma EncodeHead(c: Chr)
    ensures var e := EncodeChar(c);
      && e[0] != '<' && e[0] != '\"' && e[0] != '\''
      && (IsWhiteSpace(e[0]) <==> c == ' ') && (c == ' ' ==> e == [c])
  {
  }

  lemma ConsRef(v: Str)
    requires v != [] && !HasRef(v)
    ensures !HasRef(v[1..]) && Encode(v) == EncodeChar(v[0]) + Encode(v[1..]) && [v[0]] + v[1..] == v
  {
  }

  lemma KeepStep(c: Chr, tail: Str, end: Chr, acc: seq<char>)
    requires end == '\"' || end == '\''
    ensures ReadKeep(EncodeChar(c) + tail, end, acc) == ReadKeep(tail, end, acc + [c])
  {
    hide GetChar, EncodeChar;
    EncodeHead(c);
    CharRead(c, tail);
  }

  /** A quoted value reads back. */
  lemma {:induction false} KeepRead(v: Str, end: Chr, acc: seq<char>, tail: Str)
    requires !HasRef(v) && (end == '\"' || end == '\'')
    ensures ReadKeep(Encode(v) + [end] + tail, end, acc) == ReadTo(acc + v, tail)
    decreases |v|
  {
    hide GetChar, EncodeChar, HasRef;
    if v == [] {
      EncodeEnd();
      assert acc + v == acc;
    } else {
      hide ReadKeep, Encode;
      ConsRef(v);
      var rest := Encode(v[1..]) + [end] + tail;
      assert Encode(v) + [end] + tail == EncodeChar(v[0]) + rest;
      KeepStep(v[0], rest, end, acc);
      KeepRead(v[1..], end, acc + [v[0]], tail);
      assert acc + [v[0]] + v[1..] == acc + v;
    }
  }

  lemma TrimStep(c: Chr, tail: Str, acc: seq<char>, space: bool)
    ensures ReadTrim(EncodeChar(c) + tail, '<', acc, space) ==
      if c == ' ' then ReadTrim(tail, '<', acc, true)
      else ReadTrim(tail, '<', acc + (if space then [' '] else []) + [c], false)
  {
    hide GetChar, EncodeChar;
    EncodeHead(c);
    CharRead(c, tail);
    if c == ' ' { assert ([c] + tail)[1..] == tail; }
  }

  /** No two spaces in a row, none at the end, and none at the start after a space. */
  predicate Spaced(v: seq<char>, space: bool) {
    if v == [] then !space
    else !(space && v[0] == ' ') && Spaced(v[1..], v[0] == ' ')
  }

  lemma {:induction false} TextSpaced(v: seq<char>, space: bool)
    requires v != [] && v[|v| - 1] != ' ' && !(space && v[0] == ' ')
    requires forall i :: 0 <= i < |v| - 1 ==> !(v[i] == ' ' && v[i + 1] == ' ')
    ensures Spaced(v, space)
    decreases |v|
  {
    if |v| > 1 {
      assert !(v[0] == ' ' && v[0 + 1] == ' ');
      forall i | 0 <= i < |v[1..]| - 1 ensures !(v[1..][i] == ' ' && v[1..][i + 1] == ' ') {
        assert !(v[i + 1] == ' ' && v[i + 1 + 1] == ' ');
      }
      TextSpaced(v[1..], v[0] == ' ');
    } else {
      assert v[1..] == [];
    }
  }

  lemma Rejoin(acc: seq<char>, gap: seq<char>, c: char, v: seq<char>)
    requires v != [] && v[0] == c
    ensures acc + gap + [c] + [] + v[1..] == acc + gap + v
    ensures acc + gap + [c] + v[1..] == acc + gap + v && acc + [] == acc
  {
    assert v == [c] + v[1..];
  }

  lemma SpacedRest(v: seq<char>, space: bool)
    requires Spaced(v, space) && v != []
    ensures Spaced(v[1..], v[0] == ' ') && (v[0] == ' ' ==> !space)
  {
  }

  lemma {:induction false} TrimRead(v: Str, acc: seq<char>, space: bool, tail: Str)
    requires !HasRef(v) && Spaced(v, space)
    ensures ReadTrim(Encode(v) + ['<'] + tail, '<', acc, space) == ReadTo(acc + (if space then [' '] else []) + v, tail)
    decreases |v|
  {
    hide GetChar, EncodeChar, HasRef;
    if v == [] {
      EncodeEnd();
      assert acc + [] + v == acc;
    } else {
      hide ReadTrim, Encode, Spaced;
      ConsRef(v);
      SpacedRest(v, space);
      var c, rest := v[0], Encode(v[1..]) + ['<'] + tail;
      assert Encode(v) + ['<'] + tail == EncodeChar(c) + rest;
      TrimStep(c, rest, acc, space);
      if c == ' ' {
        TrimRead(v[1..], acc, true, tail);
        Rejoin(acc, [], c, v);
      } else {
        var acc' := acc + (if space then [' '] else []) + [c];
        TrimRead(v[1..], acc', false, tail);
        Rejoin(acc, if space then [' '] else [], c, v);
      }
    }
  }

  /** Text between tags reads back, and leaves the tag behind it. */
  lemma TextParsed(v: seq<char>, tail: Str)
    requires TextOk(v)
    ensures var s := Encode(AsStr(v)) + (['<'] + tail);
      s != [] && s[0] != '<' && !IsWhiteSpace(s[0]) && ParseText(s) == At(v, ['<'] + tail)
  {
    hide ReadTrim, Encode, EncodeChar, HasRef;
    var w := AsStr(v);
    var s := Encode(w) + (['<'] + tail);
    ConsRef(w);
    EncodeHead(w[0]);
    assert s == EncodeChar(w[0]) + (Encode(w[1..]) + (['<'] + tail));
    TextSpaced(v, false);
    TrimRead(w, [], false, tail);
    NoSkip(s);
    assert s == Encode(w) + ['<'] + tail;
    assert [] + [] + w == w;
  }

  // ----- Reading what was printed: names and attributes -----

  lemma {:induction false} NameEncoded(name: Str)
    requires forall c <- name :: NameChar(c)
    ensures Encode(name) == name
    decreases |name|
  {
    if name != [] {
      assert name[0] in name;
      NameEncoded(name[1..]);
      assert name == [name[0]] + name[1..];
    }
  }

  lemma {:induction false} NameMeasured(name: Str, tail: Str)
    requires (forall c <- name :: NameChar(c)) && tail != [] && !NameChar(tail[0])
    ensures NameLength(name + tail) == |name|
    decreases |name|
  {
    if name == [] {
      assert name + tail == tail;
    } else {
      assert name[0] in name && (name + tail)[1..] == name[1..] + tail;
      NameMeasured(name[1..], tail);
    }
  }

  lemma NameRead(name: Str, tail: Str)
    requires NameOk(name) && tail != [] && !NameChar(tail[0])
    ensures !IsWhiteSpace(name[0]) && ReadName(name + tail) == At(name, tail)
  {
    hide NameLength;
    NameMeasured(name, tail);
    assert (name + tail)[..|name|] == name && (name + tail)[|name|..] == tail;
  }

  lemma AttrParsed(a: Attr, tail: Str)
    requires NameOk(a.name) && ValueOk(a.value)
    ensures var s := PrintAttr(a) + tail; NameStart(s[0]) && ParseAttribute(s) == At(a, tail)
  {
    hide Encode, HasRef, ReadName, ReadKeep, NameStart, NameChar;
    var quote: Chr := if '\"' in a.value then '\'' else '\"';
    var v := AsStr(a.value);
    var inner := Encode(v) + [quote] + tail;
    var s := PrintAttr(a) + tail;
    NameEncoded(a.name);
    assert s == a.name + (['=', quote] + inner);
    Separators();
    NameRead(a.name, ['=', quote] + inner);
    NoSkip(s);
    NoSkip(['=', quote] + inner);
    assert (['=', quote] + inner)[1..] == [quote] + inner;
    NoSkip([quote] + inner);
    assert ([quote] + inner)[1..] == inner;
    KeepRead(v, quote, [], tail);
    assert [] + v == v;
  }

  lemma Separators()
    ensures !NameChar('=') && !NameChar(' ') && !NameChar('>') && !NameChar('/')
    ensures !NameStart('/') && !NameStart('>') && !NameStart('<')
  {
  }

  lemma AttrsRest(attrs: seq<Attr>, tail: Str)
    requires attrs != [] && AttrsOk(attrs)
    ensures AttrsOk(attrs[1..])
    ensures PrintAttrs(attrs) + tail == [' '] + (PrintAttr(attrs[0]) + (PrintAttrs(attrs[1..]) + tail))
  {
    hide PrintAttr, NameOk, ValueOk;
  }

  lemma NotNamed(done: seq<Attr>, attrs: seq<Attr>)
    requires AttrsOk(done + attrs) && attrs != []
    ensures !HasName(done, attrs[0].name) && NameOk(attrs[0].name) && ValueOk(attrs[0].value)
    ensures (done + [attrs[0]]) + attrs[1..] == done + attrs && AttrsOk(attrs)
  {
    hide NameOk, ValueOk;
    var all := done + attrs;
    assert all[|done|] == attrs[0] && all[|done|] in all;
    forall i | 0 <= i < |done| ensures done[i].name != attrs[0].name {
      assert all[i] == done[i];
    }
    forall i, j | 0 <= i < j < |attrs| ensures attrs[i].name != attrs[j].name {
      assert all[|done| + i] == attrs[i] && all[|done| + j] == attrs[j];
    }
    forall a | a in attrs ensures NameOk(a.name) && ValueOk(a.value) {
      assert a in all;
    }
  }

  lemma {:induction false} AttrsParsed(name: Str, done: seq<Attr>, attrs: seq<Attr>, tail: Str)
    requires AttrsOk(done + attrs) && tail != []
    ensures (forall a <- attrs :: ValueOk(a.value))
    ensures ParseAttributes(name, done, PrintAttrs(attrs) + tail) == ParseAttributes(name, done + attrs, tail)
    decreases |attrs|
  {
    if attrs == [] {
      assert PrintAttrs(attrs) + tail == tail && done + attrs == done;
    } else {
      hide PrintAttr, ParseAttribute, NameOk, ValueOk, AttrsOk, NameStart, HasName;
      NotNamed(done, attrs);
      AttrsRest(attrs, tail);
      var rest := PrintAttrs(attrs[1..]) + tail;
      var t := PrintAttr(attrs[0]) + rest;
      AttrParsed(attrs[0], rest);
      Separators();
      StartsBlack(t);
      assert ([' '] + t)[1..] == t;
      NoSkip(t);
      AttrsParsed(name, done + [attrs[0]], attrs[1..], tail);
      HasRefs(attrs);
    }
  }

  lemma HasRefs(attrs: seq<Attr>)
    requires AttrsOk(attrs)
    ensures forall a <- attrs :: ValueOk(a.value)
  {
    hide ValueOk, NameOk;
  }

  lemma StartsBlack(t: Str)
    requires t != [] && NameStart(t[0])
    ensures !IsWhiteSpace(t[0])
  {
  }

  // ----- Reading what was printed: trees -----

  lemma PrintedElement(n: Node, tail: Str)
    requires n.Element? && Legal(n)
    ensures NameOk(n.name) && AttrsOk(n.attrs) && AllLegal(n.children) && (forall a <- n.attrs :: ValueOk(a.value))
    ensures Print(n) + tail == ['<'] + (n.name + (PrintAttrs(n.attrs) + (
      if n.children == [] then [' ', '/', '>'] + tail else ['>'] + (PrintAll(n.children) + (EndTag(n.name) + tail)))))
  {
    hide PrintAttrs, NameOk, AttrsOk, PrintAll, EndTag;
    HasRefs(n.attrs);
  }

  /** What follows a name in a tag. */
  lemma AfterName(attrs: seq<Attr>, x: Str)
    requires AttrsOk(attrs) && x != [] && (x[0] == ' ' || x[0] == '>')
    ensures (forall a <- attrs :: ValueOk(a.value))
    ensures var s := PrintAttrs(attrs) + x; s != [] && !NameChar(s[0])
  {
    hide PrintAttr, NameOk, ValueOk;
    HasRefs(attrs);
    Separators();
    if attrs != [] { AttrsRest(attrs, x); }
  }

  lemma EmptyTag(name: Str, attrs: seq<Attr>, tail: Str)
    ensures ParseAttributes(name, attrs, [' ', '/', '>'] + tail) == At(Element(name, attrs, []), tail)
  {
    var s := [' ', '/', '>'] + tail;
    assert s[1..] == ['/', '>'] + tail;
    NoSkip(['/', '>'] + tail);
    assert (['/', '>'] + tail)[2..] == tail;
  }

  lemma OpenTag(name: Str, attrs: seq<Attr>, inner: Str, children: seq<Node>, tail: Str)
    requires ReadChildren(inner) == At(children, EndTag(name) + tail)
    ensures ParseAttributes(name, attrs, ['>'] + inner) == At(Element(name, attrs, children), tail)
  {
    hide ReadChildren, EndTag;
    NoSkip(['>'] + inner);
    assert (['>'] + inner)[1..] == inner;
    var e := EndTag(name);
    assert (e + tail)[..|e|] == e && (e + tail)[|e|..] == tail;
  }

  lemma {:induction false} ElementParsed(n: Node, tail: Str)
    requires n.Element? && Legal(n)
    ensures ParseElement(Print(n) + tail) == At(n, tail)
    decreases n, 0
  {
    hide PrintAttrs, NameOk, AttrsOk, AllLegal, ParseAttributes, Legal, Print, PrintAll, EndTag, ReadName, NameChar;
    PrintedElement(n, tail);
    var x := if n.children == [] then [' ', '/', '>'] + tail else ['>'] + (PrintAll(n.children) + (EndTag(n.name) + tail));
    var inner := n.name + (PrintAttrs(n.attrs) + x);
    AfterName(n.attrs, x);
    NameRead(n.name, PrintAttrs(n.attrs) + x);
    NoSkip(['<'] + inner);
    assert (['<'] + inner)[1..] == inner;
    NamedStart(n.name, PrintAttrs(n.attrs) + x);
    NoSkip(inner);
    assert [] + n.attrs == n.attrs;
    AttrsParsed(n.name, [], n.attrs, x);
    if n.children == [] {
      EmptyTag(n.name, n.attrs, tail);
    } else {
      ChildrenRead(n.children, n.name, tail);
      OpenTag(n.name, n.attrs, PrintAll(n.children) + (EndTag(n.name) + tail), n.children, tail);
    }
  }

  lemma NamedStart(name: Str, tail: Str)
    requires NameOk(name)
    ensures var s := name + tail; s != [] && s[0] == name[0] && NameStart(s[0]) && !IsWhiteSpace(s[0])
  {
  }

  lemma EndTagIs(name: Str, tail: Str)
    ensures var e := EndTag(name) + tail; |e| > 1 && e[0] == '<' && e[1] == '/' && Prefix(['<', '/'], e)
  {
    assert (EndTag(name) + tail)[..2] == ['<', '/'];
  }

  lemma {:induction false} ChildrenRead(ns: seq<Node>, name: Str, tail: Str)
    requires AllLegal(ns)
    ensures ReadChildren(PrintAll(ns) + (EndTag(name) + tail)) == At(ns, EndTag(name) + tail)
    decreases ns, 2
  {
    hide Print, EndTag, MoreChildren, PrintAll, AllLegal;
    var e := EndTag(name) + tail;
    EndTagIs(name, tail);
    Head(ns, e);
    NoSkip(PrintAll(ns) + e);
    ChildrenParsed([], ns, e);
    assert [] + ns == ns;
  }

  lemma NoEndTag(s: Str)
    requires s != [] && (s[0] != '<' || |s| == 1 || s[1] != '/')
    ensures !Prefix(['<', '/'], s)
  {
    if |s| > 1 { assert s[..2][0] == s[0] && s[..2][1] == s[1]; }
  }

  lemma FirstPrinted(ns: seq<Node>)
    requires AllPrintable(ns) && ns != []
    ensures Printable(ns[0]) && AllPrintable(ns[1..]) && PrintAll(ns) == Print(ns[0]) + PrintAll(ns[1..])
    ensures AllLegal(ns) ==> Legal(ns[0]) && AllLegal(ns[1..])
  {
    hide Legal, Print, Printable;
  }

  /** What a list of children, with a tag behind it, begins with. */
  lemma Head(ns: seq<Node>, e: Str)
    requires AllLegal(ns) && e != [] && e[0] == '<'
    ensures var s := PrintAll(ns) + e;
      && s != [] && !IsWhiteSpace(s[0]) && (ns == [] || ns[0].Element? ==> s[0] == '<')
      && (ns != [] ==> AllLegal(ns[1..]) && Legal(ns[0]) && s == Print(ns[0]) + (PrintAll(ns[1..]) + e))
  {
    hide AllLegal, Legal, PrintAll, Print, TextOk;
    if ns == [] {
      NoChildren(e);
    } else {
      FirstPrinted(ns);
      match ns[0]
      case Text(v) => TextHead(v);
      case Element(_, _, _) => ElementHead(ns[0], []);
    }
  }

  lemma TextHead(v: seq<char>)
    requires Legal(Text(v))
    ensures Print(Text(v)) != [] && !IsWhiteSpace(Print(Text(v))[0])
  {
    hide Encode, HasRef, EncodeChar;
    ConsRef(AsStr(v));
    EncodeHead(v[0]);
  }

  lemma ElementHead(n: Node, rest: Str)
    requires n.Element? && Legal(n)
    ensures var s := Print(n) + rest; |s| > 1 && s[0] == '<' && NameStart(s[1]) && !Prefix(['<', '/'], s)
  {
    hide AttrsOk, PrintAttrs, EndTag, AllLegal, PrintAll, Print, NameStart;
    PrintedElement(n, rest);
    Separators();
    var s := Print(n) + rest;
    assert s[1] == n.name[0];
    NoEndTag(s);
  }

  lemma TextNext(ns: seq<Node>)
    requires AllLegal(ns) && ns != [] && ns[0].Text?
    ensures ns[1..] == [] || ns[1..][0].Element?
    ensures TextOk(ns[0].value)
  {
  }

  lemma {:induction false} ChildrenParsed(done: seq<Node>, ns: seq<Node>, e: Str)
    requires AllLegal(ns) && |e| > 1 && e[0] == '<' && Prefix(['<', '/'], e)
    ensures var s := PrintAll(ns) + e; s != [] && !IsWhiteSpace(s[0]) && MoreChildren(done, s) == At(done + ns, e)
    decreases ns, 1
  {
    hide Print, PrintAll, AllLegal, ParseText, ParseElement, Encode, Legal, TextOk, NameStart;
    Head(ns, e);
    if ns == [] {
      NoChildren(e);
      assert done + ns == done;
    } else {
      var rest := PrintAll(ns[1..]) + e;
      Head(ns[1..], e);
      NoSkip(rest);
      assert done + [ns[0]] + ns[1..] == done + ns;
      ChildrenParsed(done + [ns[0]], ns[1..], e);
      match ns[0]
      case Text(v) =>
        TextNext(ns);
        assert rest == ['<'] + rest[1..];
        TextParsed(v, rest[1..]);
        TextPrinted(v);
        NotBlank(v);
        NoEndTag(Print(ns[0]) + rest);
      case Element(_, _, _) =>
        ElementHead(ns[0], rest);
        ElementParsed(ns[0], rest);
    }
  }

  lemma NoChildren(e: Str)
    ensures PrintAll([]) + e == e
  {
  }

  lemma TextPrinted(v: seq<char>)
    requires TextOk(v)
    ensures Legal(Text(v)) && Print(Text(v)) == Encode(AsStr(v))
  {
  }

  lemma NotBlank(v: seq<char>)
    requires TextOk(v)
    ensures !Blank(v)
  {
  }
}
