/** A measure of text that TinyXML (NSP/tinyxml.cpp, NSP/tinyxmlparser.cpp) keeps when it prints
    and never adds to when it parses: the number signs and control characters. A number sign
    is what a numeric reference costs, and a control character is what printing turns into
    one. */
module XmlWeight {
  import opened XmlText
  import opened XmlTree
  import opened XmlReparse

  predicate Heavy(c: char) {
    c == '#' || c as int < 32
  }

  function Weight(s: seq<char>): nat {
    if s == [] then 0 else (if Heavy(s[0]) then 1 else 0) + Weight(s[1..])
  }

  lemma {:induction false} WeightConcat(a: seq<char>, b: seq<char>)
    ensures Weight(a + b) == Weight(a) + Weight(b)
    decreases |a|
  {
    if a == [] {
      assert a + b == b;
    } else {
      assert (a + b)[1..] == a[1..] + b;
      WeightConcat(a[1..], b);
    }
  }

  lemma WeightSplit(s: seq<char>, k: nat)
    requires k <= |s|
    ensures Weight(s) == Weight(s[..k]) + Weight(s[k..])
  {
    WeightConcat(s[..k], s[k..]);
    assert s[..k] + s[k..] == s;
  }

  lemma {:induction false} Weightless(s: seq<char>)
    requires forall i :: 0 <= i < |s| ==> !Heavy(s[i])
    ensures Weight(s) == 0
    decreases |s|
  {
    if s != [] { Weightless(s[1..]); }
  }

  lemma HasWeight(s: seq<char>, k: nat)
    requires k < |s| && Heavy(s[k])
    ensures Weight(s) > 0
  {
    WeightSplit(s, k);
  }

  function AttrsWeight(attrs: seq<Attr>): nat {
    if attrs == [] then 0 else Weight(attrs[0].value) + AttrsWeight(attrs[1..])
  }

  function TreeWeight(n: Node): nat
    decreases n, 0
  {
    match n
    case Text(v) => Weight(v)
    case Element(_, attrs, children) => AttrsWeight(attrs) + NodesWeight(children)
  }

  function NodesWeight(ns: seq<Node>): nat
    decreases ns, 1
  {
    if ns == [] then 0 else TreeWeight(ns[0]) + NodesWeight(ns[1..])
  }

  lemma {:induction false} AttrsConcat(a: seq<Attr>, b: seq<Attr>)
    ensures AttrsWeight(a + b) == AttrsWeight(a) + AttrsWeight(b)
    decreases |a|
  {
    if a == [] {
      assert a + b == b;
    } else {
      assert (a + b)[1..] == a[1..] + b;
      AttrsConcat(a[1..], b);
    }
  }

  lemma {:induction false} NodesConcat(a: seq<Node>, b: seq<Node>)
    ensures NodesWeight(a + b) == NodesWeight(a) + NodesWeight(b)
    decreases |a|
  {
    if a == [] {
      assert a + b == b;
    } else {
      assert (a + b)[1..] == a[1..] + b;
      NodesConcat(a[1..], b);
    }
  }

  lemma OneAttr(attrs: seq<Attr>, a: Attr)
    ensures AttrsWeight(attrs + [a]) == AttrsWeight(attrs) + Weight(a.value)
  {
    AttrsConcat(attrs, [a]);
    assert [a][1..] == [];
  }

  lemma OneNode(ns: seq<Node>, n: Node)
    ensures NodesWeight(ns + [n]) == NodesWeight(ns) + TreeWeight(n)
  {
    NodesConcat(ns, [n]);
    assert [n][1..] == [];
  }

  // ----- Printing keeps it -----

  lemma CharWeight(c: Chr)
    ensures Weight(EncodeChar(c)) == Weight([c])
  {
    var e := EncodeChar(c);
    assert [c][1..] == [];
    if c as int < 32 {
      Weightless([e[0]]);
      Weightless(e[2..]);
      WeightSplit(e, 1);
      assert e[1..][1..] == e[2..];
    } else if c in {'&', '<', '>', '\"', '\''} {
      Weightless(e);
    }
  }

  lemma {:induction false} EncodeWeight(v: Str)
    ensures Weight(Encode(v)) == Weight(v)
    decreases |v|
  {
    hide EncodeChar, Weight, Encode, RefHere;
    EncodeEnd();
    if v != [] {
      EncodeStep(v);
      if RefHere(v) {
        RefLong(v);
        var n := RawLength(v, 1);
        WeightConcat(v[..n], Encode(v[n..]));
        WeightSplit(v, n);
        EncodeWeight(v[n..]);
      } else {
        WeightConcat(EncodeChar(v[0]), Encode(v[1..]));
        WeightSplit(v, 1);
        assert v[..1] == [v[0]];
        CharWeight(v[0]);
        EncodeWeight(v[1..]);
      }
    }
  }

  lemma RefLong(v: Str)
    requires RefHere(v)
    ensures |v| >= 3
  {
  }

  lemma NameWeight(name: Str)
    requires NameOk(name)
    ensures Weight(name) == 0
  {
    forall i | 0 <= i < |name| ensures !Heavy(name[i]) {
      assert name[i] in name;
    }
    Weightless(name);
  }

  lemma AttrPrinted(a: Attr)
    requires NameOk(a.name) && CString(a.value)
    ensures Weight(PrintAttr(a)) == Weight(a.value)
  {
    hide Encode, Weight, NameOk, CString;
    var quote: Chr := if '\"' in a.value then '\'' else '\"';
    var v := Encode(AsStr(a.value));
    NameChars(a.name);
    NameEncoded(a.name);
    NameWeight(a.name);
    EncodeWeight(AsStr(a.value));
    Weightless(['=', quote]);
    Weightless([quote]);
    WeightConcat(a.name, ['=', quote]);
    WeightConcat(a.name + ['=', quote], v);
    WeightConcat(a.name + ['=', quote] + v, [quote]);
  }

  lemma NameChars(name: Str)
    requires NameOk(name)
    ensures forall c <- name :: NameChar(c)
  {
  }

  lemma {:induction false} AttrsPrinted(attrs: seq<Attr>)
    requires forall a <- attrs :: NameOk(a.name) && CString(a.value)
    ensures Weight(PrintAttrs(attrs)) == AttrsWeight(attrs)
    decreases |attrs|
  {
    hide PrintAttr, NameOk, CString;
    if attrs != [] {
      AttrPrinted(attrs[0]);
      AttrsPrinted(attrs[1..]);
      WeightConcat([' '] + PrintAttr(attrs[0]), PrintAttrs(attrs[1..]));
      WeightConcat([' '], PrintAttr(attrs[0]));
      Weightless([' ']);
    }
  }

  lemma TagWeight(name: Str)
    requires NameOk(name)
    ensures Weight(EndTag(name)) == 0 && Weight(['<'] + name) == 0
  {
    hide Weight, NameOk;
    NameWeight(name);
    Weightless(['<', '/']);
    Weightless(['<']);
    Weightless(['>']);
    WeightConcat(['<', '/'], name);
    WeightConcat(['<', '/'] + name, ['>']);
    WeightConcat(['<'], name);
  }

  /** The printed form of a tree weighs what its values weigh. */
  lemma {:induction false} PrintWeight(n: Node)
    requires Shaped(n) && Printable(n)
    ensures Weight(Print(n)) == TreeWeight(n)
    decreases n, 0
  {
    match n
    case Text(v) =>
      EncodeWeight(AsStr(v));
    case Element(name, attrs, children) =>
      hide NameOk, CString, PrintAttrs, PrintAll, EndTag, Weight, Shaped, AllPrintable, Apart;
      ShapedParts(n);
      PrintableParts(n);
      AttrsPrinted(attrs);
      TagWeight(name);
      ChildrenWeight(n, children);
      Weightless(['>']);
      Weightless([' ', '/', '>']);
      var head := ['<'] + name + PrintAttrs(attrs);
      var inner := ['>'] + PrintAll(children) + EndTag(name);
      WeightConcat(['<'] + name, PrintAttrs(attrs));
      WeightConcat(['>'], PrintAll(children));
      WeightConcat(['>'] + PrintAll(children), EndTag(name));
      WeightConcat(head, inner);
      WeightConcat(head, [' ', '/', '>']);
      PrintIs(n);
  }

  lemma PrintIs(n: Node)
    requires n.Element? && Printable(n)
    ensures (forall a <- n.attrs :: CString(a.value)) && AllPrintable(n.children)
    ensures n.children == [] ==>
      NodesWeight(n.children) == 0 && Print(n) == ['<'] + n.name + PrintAttrs(n.attrs) + [' ', '/', '>']
    ensures n.children != [] ==>
      Print(n) == ['<'] + n.name + PrintAttrs(n.attrs) + (['>'] + PrintAll(n.children) + EndTag(n.name))
  {
    hide CString, PrintAttrs, PrintAll, AllPrintable, EndTag;
  }

  lemma ShapedParts(n: Node)
    requires n.Element? && Shaped(n)
    ensures NameOk(n.name) && NamesOk(n.attrs) && Apart(n.children)
    ensures (forall a <- n.attrs :: NameOk(a.name)) && forall c <- n.children :: Shaped(c)
  {
    hide NameOk;
  }

  lemma PrintableParts(n: Node)
    requires n.Element? && Printable(n)
    ensures (forall a <- n.attrs :: CString(a.value)) && AllPrintable(n.children)
  {
    hide CString;
  }

  lemma {:induction false} ChildrenWeight(n: Node, ns: seq<Node>)
    requires n.Element? && (forall c <- ns :: c in n.children && Shaped(c)) && AllPrintable(ns)
    ensures Weight(PrintAll(ns)) == NodesWeight(ns)
    decreases n, 0, |ns|
  {
    hide Print, Printable, Shaped, Legal, Weight;
    if ns == [] {
      Weightless(PrintAll(ns));
    } else {
      FirstPrinted(ns);
      assert ns[0] in ns && forall c <- ns[1..] :: c in ns;
      PrintWeight(ns[0]);
      ChildrenWeight(n, ns[1..]);
      WeightConcat(Print(ns[0]), PrintAll(ns[1..]));
    }
  }

  // ----- Parsing never adds to it -----

  lemma SkipWeight(s: Str)
    ensures Weight(Skip(s)) <= Weight(s)
  {
    SkipIs(s);
    WeightSplit(s, |s| - |Skip(s)|);
  }

  /** A numeric reference costs a number sign. */
  lemma NumericWeight(s: Str)
    requires |s| > 2 && s[0] == '&' && s[1] == '#' && GetChar(s).Got?
    ensures var g := GetChar(s); Weight(g.rest) < Weight(s) && |g.chars| == 1 && Weight(g.chars) <= 1
  {
    hide DigitsBack, Weight;
    var g := GetChar(s);
    NumericRest(s);
    var d := |s| - |g.rest|;
    WeightSplit(s, d);
    HasWeight(s[..d], 1);
    SmallWeight(g.chars);
  }

  lemma SmallWeight(cs: seq<char>)
    requires |cs| == 1
    ensures Weight(cs) <= 1
  {
    assert cs[1..] == [];
  }

  lemma NumericRest(s: Str)
    requires |s| > 2 && s[0] == '&' && s[1] == '#' && GetChar(s).Got?
    ensures var g := GetChar(s); |g.chars| == 1
    ensures var g := GetChar(s); |g.rest| <= |s| - 2 && g.rest == s[|s| - |g.rest|..]
  {
    hide DigitsBack;
    var d := Find(s, ';', if s[2] == 'x' then 3 else 2);
    assert GetChar(s).rest == s[d + 1..];
  }

  /** The characters of a piece, and what is left, weigh no more than the text. */
  lemma PieceWeight(s: Str)
    requires s != [] && GetChar(s).Got?
    ensures var g := GetChar(s); Weight(g.chars) + Weight(g.rest) <= Weight(s)
  {
    hide GetChar, Weight;
    if |s| > 2 && s[0] == '&' && s[1] == '#' {
      NumericWeight(s);
    } else {
      PlainPieceIs(s);
      var k := |s| - |GetChar(s).rest|;
      WeightSplit(s, k);
      if GetChar(s).chars != s[..k] { Light(GetChar(s).chars); }
    }
  }

  lemma Light(cs: seq<char>)
    requires cs == [] || cs in {['&'], ['<'], ['>'], ['\"'], ['\'']}
    ensures Weight(cs) == 0
  {
    Weightless(cs);
  }

  lemma PlainPieceIs(s: Str)
    requires s != [] && GetChar(s).Got? && !(|s| > 2 && s[0] == '&' && s[1] == '#')
    ensures var g := GetChar(s);
      && |g.rest| < |s| && g.rest == s[|s| - |g.rest|..]
      && (g.chars == s[..|s| - |g.rest|] == [s[0]] || g.chars == [] || g.chars in {['&'], ['<'], ['>'], ['\"'], ['\'']})
  {
    if s[0] != '&' { assert s[..1] == [s[0]]; }
  }

  // ----- Parsing never adds to it: text and attributes -----

  lemma {:induction false} KeepWeight(s: Str, end: Chr, acc: seq<char>)
    ensures var r := ReadKeep(s, end, acc); r.ReadTo? ==>
      acc <= r.text && Weight(r.text) + Weight(r.rest) <= Weight(acc) + Weight(s)
    decreases |s|
  {
    hide GetChar, Weight;
    if s != [] {
      if s[0] == end {
        WeightSplit(s, 1);
      } else if GetChar(s).Got? {
        var g := GetChar(s);
        PieceWeight(s);
        WeightConcat(acc, g.chars);
        KeepWeight(g.rest, end, acc + g.chars);
      }
    }
  }

  function Gap(space: bool): seq<char> {
    if space then [' '] else []
  }

  lemma GapWeight(space: bool)
    ensures Weight(Gap(space)) == 0
  {
    Weightless(Gap(space));
  }

  lemma {:induction false} TrimWeight(s: Str, acc: seq<char>, space: bool)
    ensures var r := ReadTrim(s, '<', acc, space); r.ReadTo? ==>
      acc <= r.text && Weight(r.text) + Weight(r.rest) <= Weight(acc) + Weight(s)
    decreases |s|
  {
    hide GetChar, Weight;
    if s != [] {
      WeightSplit(s, 1);
      if s[0] == '<' {
      } else if IsWhiteSpace(s[0]) {
        TrimWeight(s[1..], acc, true);
      } else if GetChar(s).Got? {
        var g := GetChar(s);
        PieceWeight(s);
        GapWeight(space);
        WeightConcat(acc, Gap(space));
        WeightConcat(acc + Gap(space), g.chars);
        TrimWeight(g.rest, acc + Gap(space) + g.chars, false);
      }
    }
  }

  lemma TextWeight(s: Str)
    requires s != [] && s[0] != '<' && !IsWhiteSpace(s[0])
    ensures var r := ParseText(s); r.At? && r.rest != [] ==>
      r.rest[0] == '<' && Weight(r.value) + Weight(r.rest) <= Weight(s)
  {
    hide ReadTrim;
    NoSkip(s);
    TrimWeight(s, [], false);
    var r := ReadTrim(s, '<', [], false);
    if r.ReadTo? {
      WeightConcat(['<'], r.rest);
      Weightless(['<']);
    }
  }

  lemma {:induction false} BareWeight(s: Str, acc: seq<char>)
    ensures var r := ReadBare(s, acc); r.At? ==> Weight(r.value) + Weight(r.rest) <= Weight(acc) + Weight(s)
    decreases |s|
  {
    hide Weight;
    if s != [] && !EndsValue(s[0]) {
      WeightSplit(s, 1);
      assert s[..1] == [s[0]];
      WeightConcat(acc, [s[0]]);
      BareWeight(s[1..], acc + [s[0]]);
    }
  }

  lemma NameLeaves(s: Str)
    ensures ReadName(s).At? ==> Weight(ReadName(s).rest) <= Weight(s)
  {
    hide Weight;
    WeightSplit(s, NameLength(s));
  }

  lemma ValueWeight(s: Str)
    ensures var r := ReadValueOf(s); r.At? ==> Weight(r.value) + Weight(r.rest) <= Weight(s)
  {
    hide ReadKeep, ReadBare, Weight;
    var t := Skip(s);
    SkipWeight(s);
    Weightless([]);
    if t != [] {
      WeightSplit(t, 1);
      KeepWeight(t[1..], t[0], []);
      BareWeight(t, []);
    }
  }

  lemma AttributeWeight(s: Str)
    ensures var r := ParseAttribute(s); r.At? ==> Weight(r.value.value) + Weight(r.rest) <= Weight(s)
  {
    hide ReadName, ReadValueOf, Weight, Skip;
    SkipWeight(s);
    NameLeaves(Skip(s));
    var r := ReadName(Skip(s));
    if r.At? {
      SkipWeight(r.rest);
      var t := Skip(r.rest);
      if t != [] {
        WeightSplit(t, 1);
        ValueWeight(t[1..]);
      }
    }
  }

  // ----- Parsing never adds to it: trees -----

  lemma {:induction false} ElementWeight(s: Str)
    ensures var r := ParseElement(s); r.At? ==> r.value.Element? && TreeWeight(r.value) + Weight(r.rest) <= Weight(s)
    decreases |s|, 0
  {
    hide ReadName, ParseAttributes, Weight, TreeWeight, Skip;
    SkipWeight(s);
    var t := Skip(s);
    if t != [] && t[0] == '<' {
      WeightSplit(t, 1);
      SkipWeight(t[1..]);
      var u := Skip(t[1..]);
      NameLeaves(u);
      if ReadName(u).At? { AttributesWeight(ReadName(u).value, [], ReadName(u).rest); }
    }
  }

  lemma {:induction false} AttributesWeight(name: Str, attrs: seq<Attr>, s: Str)
    ensures var r := ParseAttributes(name, attrs, s); r.At? ==>
      && r.value.Element? && attrs <= r.value.attrs
      && TreeWeight(r.value) + Weight(r.rest) <= AttrsWeight(attrs) + Weight(s)
    decreases |s|, 0
  {
    hide ParseAttribute, ReadChildren, Weight, Skip, AttrsWeight, HasName;
    SkipWeight(s);
    var t := Skip(s);
    if t != [] {
      WeightSplit(t, 1);
      if |t| > 1 { WeightSplit(t, 2); }
      if t[0] == '>' {
        ReadsChildren(t[1..]);
        SkipWeight(t[1..]);
        if t[1..] != [] { ReadWeight([], Skip(t[1..])); }
        var r := ReadChildren(t[1..]);
        if r.At? && Prefix(EndTag(name), r.rest) { WeightSplit(r.rest, |name| + 3); }
      } else if t[0] != '/' {
        AttributeWeight(t);
        var r := ParseAttribute(t);
        if r.At? && r.rest != [] && !HasName(attrs, r.value.name) {
          OneAttr(attrs, r.value);
          AttributesWeight(name, attrs + [r.value], r.rest);
        }
      }
    }
  }

  /** The children that are read come behind those before, and at a tag an element comes
      first. */
  lemma {:induction false} ReadWeight(done: seq<Node>, t: Str)
    requires t != [] ==> !IsWhiteSpace(t[0])
    ensures var r := MoreChildren(done, t); r.At? ==>
      && done <= r.value && NodesWeight(r.value) + Weight(r.rest) <= NodesWeight(done) + Weight(t)
      && (t != [] && t[0] == '<' && |r.value| > |done| ==> r.value[|done|].Element?)
    decreases |t|, 1
  {
    hide ParseText, ParseElement, Blank, Weight, NodesWeight, Skip, Prefix, NameStart;
    if t != [] && !Prefix(['<', '/'], t) {
      if t[0] != '<' {
        TextWeight(t);
        var r := ParseText(t);
        if r.At? && r.rest != [] {
          SkipWeight(r.rest);
          OneNode(done, Text(r.value));
          ReadWeight(if Blank(r.value) then done else done + [Text(r.value)], Skip(r.rest));
        }
      } else if |t| > 1 && NameStart(t[1]) {
        ElementWeight(t);
        var r := ParseElement(t);
        if r.At? && r.rest != [] {
          SkipWeight(r.rest);
          OneNode(done, r.value);
          ReadWeight(done + [r.value], Skip(r.rest));
        }
      }
    }
  }
}
