/** What the parser of TinyXML makes of any text (NSP/tinyxmlparser.cpp), printed and parsed
    once more. */
module XmlReparse {
  import opened XmlText
  import opened XmlTree
  import opened XmlPrinter

  // ----- The shape of what is parsed -----

  predicate NamesOk(attrs: seq<Attr>) {
    && (forall a <- attrs :: NameOk(a.name))
    && forall i, j :: 0 <= i < j < |attrs| ==> attrs[i].name != attrs[j].name
  }

  predicate Apart(ns: seq<Node>) {
    forall i :: 0 <= i < |ns| - 1 ==> !(ns[i].Text? && ns[i + 1].Text?)
  }

  /** Legal up to values: names are names, attributes distinct, and texts neither blank nor
      next to each other. */
  predicate Shaped(n: Node) {
    match n
    case Text(v) => !Blank(v)
    case Element(name, attrs, children) =>
      NameOk(name) && NamesOk(attrs) && Apart(children) && forall c <- children :: Shaped(c)
  }

  /** And the values are such as come back. */
  predicate ValuesOk(n: Node) {
    match n
    case Text(v) => TextOk(v)
    case Element(_, attrs, children) => (forall a <- attrs :: ValueOk(a.value)) && forall c <- children :: ValuesOk(c)
  }

  lemma {:induction false} LegalIs(n: Node)
    requires Shaped(n) && ValuesOk(n)
    ensures Legal(n)
    decreases n, 1
  {
    if n.Element? { AllLegalIs(n, n.children); }
  }

  lemma {:induction false} AllLegalIs(n: Node, ns: seq<Node>)
    requires n.Element? && Apart(ns) && forall c <- ns :: c in n.children && Shaped(c) && ValuesOk(c)
    ensures AllLegal(ns)
    decreases n, 0, |ns|
  {
    hide Legal, Shaped, ValuesOk;
    if ns != [] {
      assert ns[0] in ns && forall c <- ns[1..] :: c in ns;
      assert forall i :: 0 <= i < |ns| - 2 ==> ns[1..][i] == ns[i + 1];
      LegalIs(ns[0]);
      AllLegalIs(n, ns[1..]);
    }
  }

  lemma NameShaped(s: Str)
    ensures ReadName(s).At? ==> NameOk(ReadName(s).value)
  {
    if ReadName(s).At? {
      var name := ReadName(s).value;
      assert NameLength(s) > 0 && name[0] == s[0];
      forall c | c in name ensures NameChar(c) {
        var i :| 0 <= i < |name| && name[i] == c;
      }
    }
  }

  lemma AttributeShaped(s: Str)
    ensures ParseAttribute(s).At? ==> NameOk(ParseAttribute(s).value.name)
  {
    hide NameOk, ReadName, ReadValueOf;
    NameShaped(Skip(s));
  }

  lemma {:induction false} ElementShaped(s: Str)
    ensures ParseElement(s).At? ==> ParseElement(s).value.Element? && Shaped(ParseElement(s).value)
    decreases |s|, 0
  {
    hide NameOk, ReadName, ParseAttributes, Shaped;
    var t := Skip(s);
    if t != [] && t[0] == '<' {
      NameShaped(Skip(t[1..]));
      var r := ReadName(Skip(t[1..]));
      if r.At? { AttributesShaped(r.value, [], r.rest); }
    }
  }

  lemma {:induction false} AttributesShaped(name: Str, attrs: seq<Attr>, s: Str)
    requires NameOk(name) && NamesOk(attrs)
    ensures var r := ParseAttributes(name, attrs, s); r.At? ==> r.value.Element? && Shaped(r.value)
    decreases |s|, 0
  {
    hide NameOk, ParseAttribute, ReadChildren;
    var t := Skip(s);
    if t != [] {
      if t[0] == '>' {
        if t[1..] != [] { ChildrenShaped([], Skip(t[1..])); }
        ReadsChildren(t[1..]);
      } else if t[0] != '/' {
        AttributeShaped(t);
        var r := ParseAttribute(t);
        if r.At? && r.rest != [] && !HasName(attrs, r.value.name) {
          OneMoreName(attrs, r.value);
          AttributesShaped(name, attrs + [r.value], r.rest);
        }
      }
    }
  }

  lemma ReadsChildren(s: Str)
    ensures ReadChildren(s) == if s == [] then Stopped(Null) else MoreChildren([], Skip(s))
  {
  }

  lemma OneMoreName(attrs: seq<Attr>, a: Attr)
    requires NamesOk(attrs) && NameOk(a.name) && !HasName(attrs, a.name)
    ensures NamesOk(attrs + [a])
  {
    hide NameOk;
    assert forall i :: 0 <= i < |attrs| ==> attrs[i] in attrs;
  }

  /** The children so far, and no text at their end if text comes next. */
  ghost predicate Children(done: seq<Node>, t: Str) {
    && Apart(done) && (forall c <- done :: Shaped(c))
    && (t != [] && t[0] != '<' && done != [] ==> !done[|done| - 1].Text?)
  }

  lemma OneMoreChild(done: seq<Node>, t: Str, c: Node, t': Str)
    requires Children(done, t) && Shaped(c) && t != [] && (c.Text? ==> t[0] != '<' && (t' != [] ==> t'[0] == '<'))
    ensures Children(done + [c], t')
  {
    hide Shaped;
  }

  lemma {:induction false} ChildrenShaped(done: seq<Node>, t: Str)
    requires (t != [] ==> !IsWhiteSpace(t[0])) && Children(done, t)
    ensures var r := MoreChildren(done, t); r.At? ==> Apart(r.value) && forall c <- r.value :: Shaped(c)
    decreases |t|, 1
  {
    hide ParseText, ParseElement, Blank, Shaped, Prefix, NameStart;
    if t != [] && !Prefix(['<', '/'], t) {
      if t[0] != '<' {
        var r := ParseText(t);
        if r.At? && r.rest != [] {
          TextEnds(t);
          if !Blank(r.value) {
            TextShaped(r.value);
            OneMoreChild(done, t, Text(r.value), Skip(r.rest));
            ChildrenShaped(done + [Text(r.value)], Skip(r.rest));
          } else {
            ChildrenShaped(done, Skip(r.rest));
          }
        }
      } else if |t| > 1 && NameStart(t[1]) {
        ElementShaped(t);
        var r := ParseElement(t);
        if r.At? && r.rest != [] {
          OneMoreChild(done, t, r.value, Skip(r.rest));
          ChildrenShaped(done + [r.value], Skip(r.rest));
        }
      }
    }
  }

  lemma TextShaped(v: seq<char>)
    requires !Blank(v)
    ensures Shaped(Text(v))
  {
  }

  lemma TextEnds(t: Str)
    requires t != [] && t[0] != '<' && !IsWhiteSpace(t[0])
    ensures var r := ParseText(t); r.At? && r.rest != [] ==> r.rest[0] == '<' && Skip(r.rest) == r.rest
  {
    hide ReadTrim;
  }

  /** Whatever text is parsed as an element, printing the element and parsing it once more
      gives the same element, provided that its values are such as come back. */
  lemma ParsedAgain(s: Str)
    requires ParseElement(s).At? && ValuesOk(ParseElement(s).value)
    ensures var n := ParseElement(s).value; Legal(n) && ParseDocument(Print(n)) == At([n], [])
  {
    hide Shaped, ValuesOk, ParseElement, ParseDocument, Print, Legal;
    ElementShaped(s);
    LegalIs(ParseElement(s).value);
    DocumentRoundTrip(ParseElement(s).value);
  }

  /** The condition is needed: a value that is parsed from "&amp;#x41;" is printed so that it
      is parsed as another one. */
  lemma NotAgain(tail: Str)
    ensures ReadQuoted(AMP + REST + ['\"'] + tail, '\"') == At(['&'] + REST, tail)
    ensures ReadQuoted(Encode(['&'] + REST) + ['\"'] + tail, '\"') == At(['A'], tail)
  {
    hide ReadKeep, Encode;
    ReadsOnce(tail);
    NamesA(tail);
    Renamed();
    assert ['&'] + REST == ['&', '#', 'x', '4', '1', ';'];
  }

  lemma ReadsOnce(tail: Str)
    ensures ReadKeep(AMP + REST + ['\"'] + tail, '\"', []) == ReadTo(['&'] + REST, tail)
  {
    hide ReadKeep, GetChar, Encode;
    var all := ['\"'] + tail;
    RestIs();
    KeepStep('&', REST + all, '\"', []);
    assert AMP + (REST + all) == AMP + REST + ['\"'] + tail && [] + ['&'] == ['&'];
    KeepRead(REST, '\"', ['&'], tail);
    assert Encode(REST) + ['\"'] + tail == REST + all;
  }

  const REST: Str := ['#', 'x', '4', '1', ';']

  lemma RestIs()
    ensures Encode(REST) == REST && !HasRef(REST)
  {
    assert Encode([]) == [] && Encode([';']) == [';'] + Encode([]);
    assert Encode(['1', ';']) == ['1'] + Encode([';']);
    assert Encode(['4', '1', ';']) == ['4'] + Encode(['1', ';']);
    assert Encode(['x', '4', '1', ';']) == ['x'] + Encode(['4', '1', ';']);
    assert Encode(REST) == ['#'] + Encode(['x', '4', '1', ';']);
    NoRefs(REST);
  }

  lemma NamesA(tail: Str)
    ensures ReadKeep(['&'] + REST + ['\"'] + tail, '\"', []) == ReadTo(['A'], tail)
  {
    var s := ['&'] + REST + ['\"'] + tail;
    assert s[0] == '&' && s[1] == '#' && s[2] == 'x' && s[3] == '4' && s[4] == '1' && s[5] == ';';
    FindIs(s, ';', 3, 5);
    assert DigitsBack(s, 2, 'x', 16) == Number(0);
    assert DigitsBack(s, 3, 'x', 16) == Number(4);
    assert DigitsBack(s, 4, 'x', 16) == Number(0x41);
    assert CharRef(s, 5, 'x', 16) == Got([(0x41 % 256) as char], s[6..]);
    assert s[6..] == ['\"'] + tail && GetChar(s) == Got(['A'], ['\"'] + tail);
    assert [] + ['A'] == ['A'] && (['\"'] + tail)[1..] == tail;
  }

  // ----- Text without references -----

  predicate NoAmp(s: seq<char>) {
    '&' !in s
  }

  lemma SkipPart(s: Str)
    requires NoAmp(s)
    ensures NoAmp(Skip(s))
  {
    SkipIs(s);
  }

  lemma {:induction false} SkipIs(s: Str)
    ensures |Skip(s)| <= |s| && Skip(s) == s[|s| - |Skip(s)|..]
  {
    if s != [] && IsWhiteSpace(s[0]) { SkipIs(s[1..]); }
  }

  lemma PlainChar(s: Str)
    requires s != [] && NoAmp(s)
    ensures GetChar(s) == Got([s[0]], s[1..]) && NoAmp(s[1..]) && s[0] != '&'
  {
  }

  lemma PlainValue(v: seq<char>)
    requires CString(v) && NoAmp(v)
    ensures ValueOk(v)
  {
    NoRefs(AsStr(v));
  }

  lemma {:induction false} NoRefs(v: Str)
    requires NoAmp(v)
    ensures !HasRef(v)
  {
    if v != [] { NoRefs(v[1..]); }
  }

  lemma {:induction false} KeepPlain(s: Str, end: Chr, acc: seq<char>)
    requires NoAmp(s) && CString(acc) && NoAmp(acc)
    ensures var r := ReadKeep(s, end, acc); r.ReadTo? ==> CString(r.text) && NoAmp(r.text) && NoAmp(r.rest)
    decreases |s|
  {
    if s != [] && s[0] != end {
      PlainChar(s);
      KeepPlain(s[1..], end, acc + [s[0]]);
    }
  }

  lemma {:induction false} BarePlain(s: Str, acc: seq<char>)
    requires NoAmp(s) && CString(acc) && NoAmp(acc)
    ensures var r := ReadBare(s, acc); r.At? ==> CString(r.value) && NoAmp(r.value) && NoAmp(r.rest)
    decreases |s|
  {
    if s != [] && !EndsValue(s[0]) { BarePlain(s[1..], acc + [s[0]]); }
  }

  lemma AttributePlain(s: Str)
    requires NoAmp(s)
    ensures var r := ParseAttribute(s); r.At? ==> ValueOk(r.value.value) && NoAmp(r.rest)
  {
    hide ReadKeep, ReadBare, Skip, ValueOk, CString;
    SkipPart(s);
    var r := ReadName(Skip(s));
    if r.At? {
      SkipPart(r.rest);
      var t := Skip(r.rest);
      if t != [] && t[0] == '=' {
        SkipPart(t[1..]);
        var v := Skip(t[1..]);
        NothingPlain();
        if v != [] && (v[0] == '\'' || v[0] == '\"') {
          KeepPlain(v[1..], v[0], []);
          var k := ReadKeep(v[1..], v[0], []);
          if k.ReadTo? { PlainValue(k.text); }
        } else if v != [] {
          BarePlain(v, []);
          var b := ReadBare(v, []);
          if b.At? { PlainValue(b.value); }
        }
      }
    }
  }

  lemma NothingPlain()
    ensures CString([]) && NoAmp([])
  {
  }

  /** Text as it is collected: no space at either end, or next to another. */
  predicate Trimmed(v: seq<char>) {
    && CString(v) && NoAmp(v) && (v != [] ==> v[0] != ' ' && v[|v| - 1] != ' ')
    && forall i :: 0 <= i < |v| - 1 ==> !(v[i] == ' ' && v[i + 1] == ' ')
  }

  lemma Joined(v: seq<char>, space: bool, c: Chr)
    requires Trimmed(v) && (v == [] ==> !space) && !IsWhiteSpace(c) && c != '&'
    ensures Trimmed(v + (if space then [' '] else []) + [c])
  {
  }

  lemma {:induction false} TrimPlain(s: Str, acc: seq<char>, space: bool)
    requires NoAmp(s) && Trimmed(acc) && (acc == [] ==> !space && (s == [] || s[0] == '<' || !IsWhiteSpace(s[0])))
    ensures var r := ReadTrim(s, '<', acc, space);
      && (r.ReadTo? ==> Trimmed(r.text) && NoAmp(r.rest))
      && (r.ReadPast? ==> Trimmed(r.text))
    decreases |s|
  {
    hide Trimmed;
    if s != [] && s[0] != '<' {
      if IsWhiteSpace(s[0]) {
        TrimPlain(s[1..], acc, true);
      } else {
        PlainChar(s);
        Joined(acc, space, s[0]);
        TrimPlain(s[1..], acc + (if space then [' '] else []) + [s[0]], false);
      }
    }
  }

  lemma TextPlain(t: Str)
    requires t != [] && t[0] != '<' && !IsWhiteSpace(t[0]) && NoAmp(t)
    ensures var r := ParseText(t); r.At? ==> NoAmp(r.rest) && (!Blank(r.value) ==> TextOk(r.value))
  {
    hide ReadTrim, ValueOk;
    assert Skip(t) == t && Trimmed([]);
    TrimPlain(t, [], false);
    var r := ParseText(t);
    if r.At? { PlainValue(r.value); }
  }

  lemma {:induction false} ElementPlain(s: Str)
    requires NoAmp(s)
    ensures var r := ParseElement(s); r.At? ==> ValuesOk(r.value) && NoAmp(r.rest)
    decreases |s|, 0
  {
    hide ReadName, ParseAttributes, ValuesOk, NoAmp;
    SkipPart(s);
    var t := Skip(s);
    if t != [] && t[0] == '<' {
      Suffix(t, 1);
      SkipPart(t[1..]);
      NamePlain(Skip(t[1..]));
      var r := ReadName(Skip(t[1..]));
      if r.At? { AttributesPlain(r.value, [], r.rest); }
    }
  }

  lemma Suffix(s: Str, k: nat)
    requires NoAmp(s) && k <= |s|
    ensures NoAmp(s[k..])
  {
  }

  lemma NamePlain(s: Str)
    requires NoAmp(s)
    ensures ReadName(s).At? ==> NoAmp(ReadName(s).rest)
  {
  }

  lemma {:induction false} AttributesPlain(name: Str, attrs: seq<Attr>, s: Str)
    requires NoAmp(s) && forall a <- attrs :: ValueOk(a.value)
    ensures var r := ParseAttributes(name, attrs, s); r.At? ==> ValuesOk(r.value) && NoAmp(r.rest)
    decreases |s|, 0
  {
    hide ParseAttribute, ReadChildren, NoAmp, ValueOk;
    SkipPart(s);
    var t := Skip(s);
    if t != [] {
      Suffix(t, 1);
      if |t| > 1 { Suffix(t, 2); }
      if t[0] == '>' {
        ReadsChildren(t[1..]);
        SkipPart(t[1..]);
        if t[1..] != [] { ChildrenPlain([], Skip(t[1..])); }
        var r := ReadChildren(t[1..]);
        if r.At? && Prefix(EndTag(name), r.rest) { Suffix(r.rest, |name| + 3); }
      } else if t[0] != '/' {
        AttributePlain(t);
        var r := ParseAttribute(t);
        if r.At? && r.rest != [] && !HasName(attrs, r.value.name) { AttributesPlain(name, attrs + [r.value], r.rest); }
      }
    }
  }

  lemma {:induction false} ChildrenPlain(done: seq<Node>, t: Str)
    requires (t != [] ==> !IsWhiteSpace(t[0])) && NoAmp(t) && forall c <- done :: ValuesOk(c)
    ensures var r := MoreChildren(done, t); r.At? ==> NoAmp(r.rest) && forall c <- r.value :: ValuesOk(c)
    decreases |t|, 1
  {
    hide ParseText, ParseElement, Blank, ValuesOk, Prefix, NameStart, NoAmp;
    if t != [] && !Prefix(['<', '/'], t) {
      if t[0] != '<' {
        TextPlain(t);
        var r := ParseText(t);
        if r.At? && r.rest != [] {
          SkipPart(r.rest);
          if !Blank(r.value) {
            TextValues(r.value);
            ChildrenPlain(done + [Text(r.value)], Skip(r.rest));
          } else {
            ChildrenPlain(done, Skip(r.rest));
          }
        }
      } else if |t| > 1 && NameStart(t[1]) {
        ElementPlain(t);
        var r := ParseElement(t);
        if r.At? && r.rest != [] {
          SkipPart(r.rest);
          ChildrenPlain(done + [r.value], Skip(r.rest));
        }
      }
    }
  }

  lemma TextValues(v: seq<char>)
    requires TextOk(v)
    ensures ValuesOk(Text(v))
  {
  }

  /** Without references in the text it always comes back: parse, print, parse is parse. */
  lemma PlainParsedAgain(s: Str)
    requires ParseElement(s).At? && NoAmp(s)
    ensures var n := ParseElement(s).value; Legal(n) && ParseDocument(Print(n)) == At([n], [])
  {
    hide ValuesOk, ParseElement, ParseDocument, Print, Legal;
    ElementPlain(s);
    ParsedAgain(s);
  }
}
