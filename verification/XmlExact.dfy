/** Exactly when what TinyXML (NSP/tinyxml.cpp, NSP/tinyxmlparser.cpp) prints is parsed back:
    a value that is not printed faithfully is never made up for by what follows it. */
module XmlExact {
  import opened Sequences
  import opened XmlText
  import opened XmlTree
  import opened XmlPrinter
  import opened XmlReparse
  import opened XmlWeight

  // ----- Values -----

  lemma RefParts(v: Str)
    requires RefHere(v)
    ensures v != [] && v[0] == '&' && HasRef(v)
  {
  }

  lemma NoRefParts(v: Str)
    requires v != [] && !RefHere(v)
    ensures HasRef(v) == HasRef(v[1..]) && Encode(v) == EncodeChar(v[0]) + Encode(v[1..])
    ensures [v[0]] + v[1..] == v && Weight(v) >= Weight(v[1..])
    ensures v[0] == ' ' ==> Weight(v) == Weight(v[1..])
  {
    hide Encode, EncodeChar, RefHere;
    EncodeStep(v);
  }

  /** What is passed through is read as a numeric reference, which costs a number sign. */
  lemma RefCosts(v: Str, tail: Str)
    requires RefHere(v) && GetChar(Encode(v) + tail).Got?
    ensures var g := GetChar(Encode(v) + tail); |g.chars| == 1 && Weight(g.rest) < Weight(v) + Weight(tail)
  {
    hide GetChar, Weight, Encode;
    var s := Encode(v) + tail;
    RefBegins(v);
    EncodeWeight(v);
    WeightConcat(Encode(v), tail);
    NumericWeight(s);
  }

  lemma RefBegins(v: Str)
    requires RefHere(v)
    ensures var e := Encode(v); |e| > 2 && e[0] == '&' && e[1] == '#'
  {
    hide EncodeChar, RawLength;
    EncodeStep(v);
    EncodeStep(v[2..]);
    var n := RawLength(v, 1);
    RawTwo(v);
    if n == 2 {
      EncodesSelf();
      EncodeEnd();
      assert v[2..] == ['x'];
    }
  }

  lemma RawTwo(v: Str)
    requires RefHere(v)
    ensures RawLength(v, 1) >= 2 && (RawLength(v, 1) == 2 ==> |v| == 3)
  {
  }

  /** Text that begins with "more" after the text before. */
  lemma Begins(text: seq<char>, acc: seq<char>, more: seq<char>, v: seq<char>)
    requires acc + more <= text && text == acc + v && |more| <= |v|
    ensures v[..|more|] == more
  {
    assert text[|acc|..] == v && text[..|acc + more|] == acc + more;
    assert forall i :: 0 <= i < |more| ==> more[i] == (acc + more)[|acc| + i] == text[|acc| + i] == v[i];
  }

  /** If a quoted value comes back equal, what is left weighs less than what stood behind it,
      or the value had no reference in it and all of it is left. */
  lemma {:induction false} KeepTight(v: Str, quote: Chr, acc: seq<char>, tail: Str, rest: Str)
    requires quote == '\"' || quote == '\''
    requires ReadKeep(Encode(v) + [quote] + tail, quote, acc) == ReadTo(acc + v, rest)
    ensures Weight(rest) < Weight(tail) || (rest == tail && !HasRef(v))
    decreases |v|
  {
    hide GetChar, EncodeChar, HasRef, Weight, RefHere;
    if v == [] {
      EncodeEnd();
      NoneHere();
      assert acc + v == acc;
    } else if RefHere(v) {
      hide Encode;
      KeepRefTight(v, quote, acc, tail, rest);
    } else {
      hide ReadKeep, Encode;
      NoRefParts(v);
      var more := Encode(v[1..]) + [quote] + tail;
      assert Encode(v) + [quote] + tail == EncodeChar(v[0]) + more;
      KeepStep(v[0], more, quote, acc);
      assert acc + [v[0]] + v[1..] == acc + v;
      KeepTight(v[1..], quote, acc + [v[0]], tail, rest);
    }
  }

  lemma NoneHere()
    ensures !HasRef([])
  {
  }

  lemma KeepRefTight(v: Str, quote: Chr, acc: seq<char>, tail: Str, rest: Str)
    requires RefHere(v) && (quote == '\"' || quote == '\'')
    requires ReadKeep(Encode(v) + [quote] + tail, quote, acc) == ReadTo(acc + v, rest)
    ensures Weight(rest) < Weight(tail)
  {
    hide GetChar, Encode, EncodeChar, HasRef, Weight;
    var end := [quote] + tail;
    var s := Encode(v) + end;
    assert s == Encode(v) + [quote] + tail;
    RefBegins(v);
    var g := GetChar(s);
    RefCosts(v, end);
    KeepWeight(g.rest, quote, acc + g.chars);
    Begins(acc + v, acc, g.chars, v);
    assert g.chars == ['&'];
    Light(g.chars);
    WeightConcat(acc, g.chars);
    WeightConcat(acc, v);
    WeightConcat([quote], tail);
    Weightless([quote]);
  }

  /** A quoted value is read back as it was exactly if it has no hexadecimal reference. */
  lemma ValueExactly(v: Str, quote: Chr, tail: Str)
    requires quote == '\"' || quote == '\''
    ensures ReadQuoted(Encode(v) + [quote] + tail, quote) == At(v, tail) <==> !HasRef(v)
  {
    hide ReadKeep, Encode, HasRef, Weight;
    assert [] + v == v;
    if ReadQuoted(Encode(v) + [quote] + tail, quote) == At(v, tail) { KeepTight(v, quote, [], tail, tail); }
    if !HasRef(v) { KeepRead(v, quote, [], tail); }
  }

  // ----- Text -----

  lemma TrimPiece(s: Str, acc: seq<char>, space: bool)
    requires s != [] && s[0] == '&' && ReadTrim(s, '<', acc, space).ReadTo?
    ensures var g := GetChar(s); g.Got? && ReadTrim(s, '<', acc, space) == ReadTrim(g.rest, '<', acc + Gap(space) + g.chars, false)
  {
    hide GetChar;
  }

  /** A numeric reference that gives no number sign or control character loses weight. */
  lemma TrimRefTight(w: Str, acc: seq<char>, space: bool, v: seq<char>, tail: Str, rest: Str)
    requires RefHere(w) && v != [] && !Heavy(v[0]) && Weight(v) == Weight(w)
    requires ReadTrim(Encode(w) + ['<'] + tail, '<', acc, space) == ReadTo(acc + Gap(space) + v, rest)
    ensures Weight(rest) < Weight(tail)
  {
    hide GetChar, Encode, EncodeChar, HasRef, RefHere, Heavy, Gap, Weight, ReadTrim;
    var end := ['<'] + tail;
    var s := Encode(w) + end;
    assert s == Encode(w) + ['<'] + tail;
    RefBegins(w);
    TrimPiece(s, acc, space);
    var g := GetChar(s);
    var base := acc + Gap(space);
    RefCosts(w, end);
    TrimWeight(g.rest, base + g.chars, false);
    Begins(base + v, base, g.chars, v);
    WeightConcat(base, g.chars);
    WeightConcat(base, v);
    LightFirst(v, g.chars);
    WeightConcat(['<'], tail);
    Light(['<']);
  }

  lemma LightFirst(v: seq<char>, cs: seq<char>)
    requires v != [] && !Heavy(v[0]) && cs == v[..1]
    ensures Weight(cs) == 0
  {
    Weightless(cs);
  }

  lemma TrimEnd(acc: seq<char>, space: bool, tail: Str)
    ensures ReadTrim(Encode([]) + ['<'] + tail, '<', acc, space) == ReadTo(acc, tail)
  {
    EncodeEnd();
    assert ([] + ['<'] + tail)[1..] == tail;
  }

  lemma TrimPlainStep(v: Str, acc: seq<char>, space: bool, tail: Str)
    requires v != [] && !RefHere(v)
    ensures ReadTrim(Encode(v) + ['<'] + tail, '<', acc, space) ==
      if v[0] == ' ' then ReadTrim(Encode(v[1..]) + ['<'] + tail, '<', acc, true)
      else ReadTrim(Encode(v[1..]) + ['<'] + tail, '<', acc + Gap(space) + [v[0]], false)
  {
    hide ReadTrim, Encode, EncodeChar, HasRef, RefHere, Weight;
    NoRefParts(v);
    var more := Encode(v[1..]) + ['<'] + tail;
    assert Encode(v) + ['<'] + tail == EncodeChar(v[0]) + more;
    TrimStep(v[0], more, acc, space);
  }

  lemma TrimGrows(s: Str, acc: seq<char>, space: bool, text: seq<char>, rest: Str)
    requires ReadTrim(s, '<', acc, space) == ReadTo(text, rest)
    ensures acc <= text
  {
    TrimWeight(s, acc, space);
  }

  /** A space that was left out comes back, if at all, from a numeric reference. */
  lemma {:induction false} Lag(w: Str, acc: seq<char>, space: bool, x: seq<char>, tail: Str, rest: Str)
    requires (space || (w != [] && w[0] != ' ')) && Weight(x) == Weight(w)
    requires ReadTrim(Encode(w) + ['<'] + tail, '<', acc, space) == ReadTo(acc + Gap(space) + ([' '] + x), rest)
    ensures Weight(rest) < Weight(tail)
    decreases |w|
  {
    hide ReadTrim, Encode, EncodeChar, HasRef, RefHere, Weight;
    var v := [' '] + x;
    if w == [] {
      TrimEnd(acc, space, tail);
      assert false;
    } else if RefHere(w) {
      SpaceWeight(x);
      TrimRefTight(w, acc, space, v, tail, rest);
    } else {
      NoRefParts(w);
      TrimPlainStep(w, acc, space, tail);
      if w[0] == ' ' {
        Lag(w[1..], acc, true, x, tail, rest);
      } else {
        var base := acc + Gap(space);
        TrimGrows(Encode(w[1..]) + ['<'] + tail, base + [w[0]], false, base + v, rest);
        Begins(base + v, base, [w[0]], v);
        assert false;
      }
    }
  }

  lemma SpaceWeight(x: seq<char>)
    ensures Weight([' '] + x) == Weight(x)
  {
    assert ([' '] + x)[1..] == x;
  }

  /** The same for text, whose spaces have to be single ones. */
  lemma {:induction false} TrimTight(v: Str, acc: seq<char>, space: bool, tail: Str, rest: Str)
    requires ReadTrim(Encode(v) + ['<'] + tail, '<', acc, space) == ReadTo(acc + Gap(space) + v, rest)
    ensures Weight(rest) < Weight(tail) || (rest == tail && !HasRef(v) && Spaced(v, space))
    decreases |v|
  {
    hide ReadTrim, Encode, EncodeChar, HasRef, RefHere, Weight;
    if v == [] {
      TrimEnd(acc, space, tail);
      NoneHere();
      assert |acc + Gap(space) + v| == |acc| + |Gap(space)|;
    } else if RefHere(v) {
      RefParts(v);
      TrimRefTight(v, acc, space, v, tail, rest);
    } else {
      hide Spaced;
      NoRefParts(v);
      TrimPlainStep(v, acc, space, tail);
      SpacedStep(v, space);
      if v[0] != ' ' {
        assert acc + Gap(space) + [v[0]] + Gap(false) + v[1..] == acc + Gap(space) + v;
        TrimTight(v[1..], acc + Gap(space) + [v[0]], false, tail, rest);
      } else if space {
        Lag(v[1..], acc, true, v[1..], tail, rest);
      } else {
        assert acc + Gap(true) + v[1..] == acc + Gap(space) + v;
        TrimTight(v[1..], acc, true, tail, rest);
      }
    }
  }

  lemma SpacedStep(v: seq<char>, space: bool)
    requires v != []
    ensures Spaced(v, space) <==> !(space && v[0] == ' ') && Spaced(v[1..], v[0] == ' ')
  {
  }

  lemma {:induction false} SpacedText(v: seq<char>, space: bool)
    requires Spaced(v, space) && v != []
    ensures v[|v| - 1] != ' ' && forall i :: 0 <= i < |v| - 1 ==> !(v[i] == ' ' && v[i + 1] == ' ')
    decreases |v|
  {
    if |v| > 1 {
      SpacedText(v[1..], v[0] == ' ');
      forall i | 0 <= i < |v| - 1 ensures !(v[i] == ' ' && v[i + 1] == ' ') {
        if i > 0 { assert !(v[1..][i - 1] == ' ' && v[1..][i - 1 + 1] == ' '); }
      }
    } else {
      assert v[1..] == [];
    }
  }

  /** What is left of text when the white space before it is skipped. */
  function Strip(v: Str): (w: Str)
    ensures v != [] && v[0] != ' ' ==> w == v
    ensures w != [] ==> w[0] != ' '
  {
    if v != [] && v[0] == ' ' then Strip(v[1..]) else v
  }

  lemma {:induction false} StripIs(v: Str)
    ensures Weight(Strip(v)) == Weight(v) && (!Blank(v) ==> Strip(v) != [])
    decreases |v|
  {
    if v != [] && v[0] == ' ' {
      StripIs(v[1..]);
      assert forall i :: 0 < i < |v| ==> v[i] == v[1..][i - 1];
    }
  }

  lemma Starts(w: Str, tail: Str)
    requires w != [] && w[0] != ' '
    ensures var s := Encode(w) + tail; s != [] && s[0] != '<' && !IsWhiteSpace(s[0])
  {
    hide EncodeChar, HasRef;
    if RefHere(w) {
      RefBegins(w);
    } else {
      EncodeStep(w);
      EncodeHead(w[0]);
    }
  }

  lemma {:induction false} SkipsSpaces(v: Str, tail: Str)
    requires Strip(v) != []
    ensures Skip(Encode(v) + tail) == Encode(Strip(v)) + tail
    decreases |v|
  {
    hide Encode, EncodeChar, HasRef;
    if v[0] == ' ' {
      EncodeStep(v);
      EncodeHead(' ');
      assert (Encode(v) + tail)[1..] == Encode(v[1..]) + tail;
      SkipsSpaces(v[1..], tail);
    } else {
      Starts(v, tail);
      NoSkip(Encode(v) + tail);
    }
  }

  /** If text comes back equal, what is left weighs less than what stood behind it, or the
      text is such as comes back and all of it is left. */
  lemma TextTight(v: Str, tail: Str, rest: Str)
    requires !Blank(v) && Strip(v) != []
    requires var s := Encode(Strip(v)) + (['<'] + tail);
      s != [] && s[0] != '<' && !IsWhiteSpace(s[0]) && ParseText(s) == At(v, ['<'] + rest)
    ensures Weight(rest) < Weight(tail) || (rest == tail && TextOk(v))
  {
    hide ReadTrim, Encode, HasRef, Weight, Strip, Spaced;
    var w := Strip(v);
    var s := Encode(w) + (['<'] + tail);
    NoSkip(s);
    assert s == Encode(w) + ['<'] + tail;
    var r := ReadTrim(s, '<', [], false);
    assert r.ReadTo?;
    assert r.rest == (['<'] + r.rest)[1..] == (['<'] + rest)[1..] == rest;
    StripIs(v);
    if v[0] == ' ' {
      assert [] + Gap(false) + ([' '] + v[1..]) == v;
      SpaceWeight(v[1..]);
      assert [' '] + v[1..] == v;
      Lag(w, [], false, v[1..], tail, rest);
    } else {
      assert [] + Gap(false) + v == v;
      TrimTight(v, [], false, tail, rest);
      if Spaced(v, false) { SpacedText(v, false); }
    }
  }

  /** Text that is not blank and does not begin with a space is read back as it was exactly
      if condensing white space leaves it alone and it has no hexadecimal reference. */
  lemma TextExactly(v: Str, tail: Str)
    requires !Blank(v) && v[0] != ' '
    ensures var s := Encode(v) + (['<'] + tail);
      && s != [] && s[0] != '<' && !IsWhiteSpace(s[0])
      && (ParseText(s) == At(v, ['<'] + tail) <==> TextOk(v))
  {
    hide ReadTrim, Encode, HasRef, Weight, ParseText, TextOk;
    Starts(v, ['<'] + tail);
    if ParseText(Encode(v) + (['<'] + tail)) == At(v, ['<'] + tail) { TextTight(v, tail, tail); }
    if TextOk(v) { TextParsed(v, tail); }
  }

  // ----- Attributes -----

  lemma AttrTight(a: Attr, tail: Str, rest: Str)
    requires NameOk(a.name) && CString(a.value) && ParseAttribute(PrintAttr(a) + tail) == At(a, rest)
    ensures Weight(rest) < Weight(tail) || (rest == tail && ValueOk(a.value))
  {
    hide Encode, HasRef, ReadName, ReadKeep, NameStart, NameChar, Weight;
    var quote: Chr := if '\"' in a.value then '\'' else '\"';
    var v := AsStr(a.value);
    var inner := Encode(v) + [quote] + tail;
    var s := PrintAttr(a) + tail;
    NameChars(a.name);
    NameEncoded(a.name);
    assert s == a.name + (['=', quote] + inner);
    Separators();
    NameRead(a.name, ['=', quote] + inner);
    NoSkip(s);
    NoSkip(['=', quote] + inner);
    assert (['=', quote] + inner)[1..] == [quote] + inner;
    NoSkip([quote] + inner);
    assert ([quote] + inner)[1..] == inner;
    assert [] + v == v;
    KeepTight(v, quote, [], tail, rest);
  }

  lemma AttrBegins(a: Attr, tail: Str)
    requires NameOk(a.name) && CString(a.value)
    ensures var s := PrintAttr(a) + tail; s != [] && NameStart(s[0]) && !IsWhiteSpace(s[0]) && s[0] != '/' && s[0] != '>'
  {
    hide Encode, CString;
    NameChars(a.name);
    NameEncoded(a.name);
    assert (PrintAttr(a) + tail)[0] == a.name[0];
  }

  lemma NextAttr(done: seq<Attr>, attrs: seq<Attr>, tail: Str)
    requires NamesOk(done + attrs) && attrs != [] && forall a <- attrs :: CString(a.value)
    ensures NameOk(attrs[0].name) && forall a <- attrs :: NameOk(a.name)
    ensures (done + [attrs[0]]) + attrs[1..] == done + attrs
    ensures PrintAttrs(attrs) + tail == [' '] + (PrintAttr(attrs[0]) + (PrintAttrs(attrs[1..]) + tail))
  {
    hide PrintAttr, NameOk, CString;
    forall a | a in attrs ensures NameOk(a.name) {
      assert a in done + attrs;
    }
    assert attrs[0] in attrs;
  }

  lemma AttrIs(all: seq<Attr>, done: seq<Attr>, a: Attr, attrs: seq<Attr>)
    requires done + [a] <= all && all == done + attrs && attrs != []
    ensures a == attrs[0]
  {
    assert all[|done|] == (done + [a])[|done|] == a;
  }

  /** If the attributes that are printed come back in an element, what is left weighs less
      than it should, or all values are such as come back and the tag's end is read next. */
  lemma {:induction false} AttrsTight(done: seq<Attr>, attrs: seq<Attr>, n: Node, tail: Str, rest: Str)
    requires n.Element? && n.attrs == done + attrs && NamesOk(n.attrs) && tail != []
    requires forall a <- attrs :: CString(a.value)
    requires ParseAttributes(n.name, done, PrintAttrs(attrs) + tail) == At(n, rest)
    ensures NodesWeight(n.children) + Weight(rest) < Weight(tail) ||
      (ParseAttributes(n.name, n.attrs, tail) == At(n, rest) && forall a <- attrs :: ValueOk(a.value))
    decreases |attrs|
  {
    if attrs == [] {
      assert PrintAttrs(attrs) + tail == tail && done + attrs == done;
    } else {
      hide PrintAttr, PrintAttrs, ParseAttribute, NameOk, ValueOk, NamesOk, HasName, CString, Weight, AttrsWeight, NodesWeight;
      NextAttr(done, attrs, tail);
      var more := PrintAttrs(attrs[1..]) + tail;
      var t := PrintAttr(attrs[0]) + more;
      AttrBegins(attrs[0], more);
      assert ([' '] + t)[1..] == t;
      NoSkip(t);
      var r := ParseAttribute(t);
      AttributesWeight(n.name, done + [r.value], r.rest);
      AttrIs(n.attrs, done, r.value, attrs);
      AttrTight(attrs[0], more, r.rest);
      if r.rest == more && ValueOk(attrs[0].value) {
        AttrsTight(done + [attrs[0]], attrs[1..], n, tail, rest);
        assert attrs == [attrs[0]] + attrs[1..];
      } else {
        AttrsSum(done, attrs);
        AttrsPrinted(attrs[1..]);
        WeightConcat(PrintAttrs(attrs[1..]), tail);
        ElementWeighs(n);
      }
    }
  }

  lemma AttrsSum(done: seq<Attr>, attrs: seq<Attr>)
    requires attrs != []
    ensures AttrsWeight(done + attrs) == AttrsWeight(done + [attrs[0]]) + AttrsWeight(attrs[1..])
  {
    AttrsConcat(done + [attrs[0]], attrs[1..]);
    assert done + [attrs[0]] + attrs[1..] == done + attrs;
  }

  lemma ElementWeighs(n: Node)
    requires n.Element?
    ensures TreeWeight(n) == AttrsWeight(n.attrs) + NodesWeight(n.children)
  {
  }

  // ----- Trees -----

  /** The text of an element, by the parts of its start tag. */
  lemma ElementText(n: Node, tail: Str)
    requires n.Element? && Shaped(n) && Printable(n)
    ensures NameOk(n.name) && NamesOk(n.attrs) && Apart(n.children) && AllPrintable(n.children)
    ensures (forall a <- n.attrs :: CString(a.value)) && forall c <- n.children :: Shaped(c)
    ensures Print(n) + tail == ['<'] + (n.name + (PrintAttrs(n.attrs) + (
      if n.children == [] then [' ', '/', '>'] + tail else ['>'] + (PrintAll(n.children) + (EndTag(n.name) + tail)))))
  {
    hide PrintAttrs, NameOk, NamesOk, Apart, PrintAll, EndTag, Shaped, CString;
    ShapedParts(n);
    PrintIs(n);
  }

  lemma TagOpens(name: Str, attrs: seq<Attr>, x: Str)
    requires NameOk(name) && (forall a <- attrs :: CString(a.value)) && x != [] && (x[0] == ' ' || x[0] == '>')
    ensures var s := PrintAttrs(attrs) + x; s != [] && ReadName(name + s) == At(name, s) && Skip(name + s) == name + s
  {
    hide PrintAttr, NameOk, CString, ReadName, NameChar;
    var s := PrintAttrs(attrs) + x;
    Separators();
    NameRead(name, s);
    NamedStart(name, s);
    NoSkip(name + s);
  }

  lemma ElementBegins(n: Node, tail: Str)
    requires n.Element? && Shaped(n) && Printable(n)
    ensures var s := Print(n) + tail; |s| > 1 && s[0] == '<' && NameStart(s[1]) && !Prefix(['<', '/'], s) && Skip(s) == s
  {
    hide PrintAttrs, EndTag, PrintAll, Print, NameStart, Shaped, Printable, NamesOk, Apart;
    ElementText(n, tail);
    Separators();
    var s := Print(n) + tail;
    NamedStart(n.name, []);
    assert n.name + [] == n.name;
    assert s[1] == n.name[0];
    NoEndTag(s);
    NoSkip(s);
  }

  /** If a printed element comes back, what is left weighs less than what stood behind it, or
      its values are such as come back and all of that is left. */
  lemma {:induction false} ElementTight(n: Node, tail: Str, rest: Str)
    requires n.Element? && Shaped(n) && Printable(n) && ParseElement(Print(n) + tail) == At(n, rest)
    ensures Weight(rest) < Weight(tail) || (rest == tail && ValuesOk(n))
    decreases n, 0
  {
    hide PrintAttrs, NameOk, NamesOk, Apart, ParseAttributes, Shaped, Printable, AllPrintable, Print, PrintAll, EndTag, ReadName;
    hide CString, ValueOk, ValuesOk, Weight, NodesWeight, Skip;
    ElementText(n, tail);
    var end := EndTag(n.name) + tail;
    var x := if n.children == [] then [' ', '/', '>'] + tail else ['>'] + (PrintAll(n.children) + end);
    var inner := n.name + (PrintAttrs(n.attrs) + x);
    TagOpens(n.name, n.attrs, x);
    NoSkip(['<'] + inner);
    assert (['<'] + inner)[1..] == inner;
    assert [] + n.attrs == n.attrs;
    assert ParseAttributes(n.name, [], PrintAttrs(n.attrs) + x) == At(n, rest);
    AttrsTight([], n.attrs, n, x, rest);
    WeightOfEnd(n, tail);
    if NodesWeight(n.children) + Weight(rest) >= Weight(x) {
      if n.children == [] {
        EmptyTag(n.name, n.attrs, tail);
        NoValues(n);
      } else {
        InnerTight(n, tail, rest);
      }
    }
  }

  /** What stands behind the attributes of a printed element. */
  lemma WeightOfEnd(n: Node, tail: Str)
    requires n.Element? && Shaped(n) && Printable(n) && AllPrintable(n.children)
    ensures Weight([' ', '/', '>'] + tail) == Weight(tail)
    ensures Weight(['>'] + (PrintAll(n.children) + (EndTag(n.name) + tail))) == NodesWeight(n.children) + Weight(tail)
    ensures Weight(EndTag(n.name) + tail) == Weight(tail)
  {
    hide Weight, PrintAll, EndTag, Shaped, Printable, AllPrintable, NodesWeight;
    ShapedParts(n);
    ChildrenWeight(n, n.children);
    TagWeight(n.name);
    Weightless([' ', '/', '>']);
    Weightless(['>']);
    var end := EndTag(n.name) + tail;
    WeightConcat([' ', '/', '>'], tail);
    WeightConcat(EndTag(n.name), tail);
    WeightConcat(PrintAll(n.children), end);
    WeightConcat(['>'], PrintAll(n.children) + end);
  }

  lemma NoValues(n: Node)
    requires n.Element? && n.children == [] && forall a <- n.attrs :: ValueOk(a.value)
    ensures ValuesOk(n)
  {
    hide ValueOk;
  }

  lemma AllValues(n: Node)
    requires n.Element? && (forall a <- n.attrs :: ValueOk(a.value)) && forall c <- n.children :: ValuesOk(c)
    ensures ValuesOk(n)
  {
    hide ValueOk;
  }

  /** The part of an element between its start tag and its end tag. */
  lemma {:induction false} InnerTight(n: Node, tail: Str, rest: Str)
    requires n.Element? && Shaped(n) && Printable(n) && AllPrintable(n.children) && n.children != []
    requires forall a <- n.attrs :: ValueOk(a.value)
    requires ParseAttributes(n.name, n.attrs, ['>'] + (PrintAll(n.children) + (EndTag(n.name) + tail))) == At(n, rest)
    ensures Weight(rest) < Weight(tail) || (rest == tail && ValuesOk(n))
    decreases n, 0, |n.children| + 1
  {
    hide Shaped, Printable, AllPrintable, PrintAll, EndTag, ValueOk, ValuesOk, Weight, NameOk, NamesOk, Apart, Skip, MoreChildren;
    var end := EndTag(n.name) + tail;
    var inner := PrintAll(n.children) + end;
    NoSkip(['>'] + inner);
    assert (['>'] + inner)[1..] == inner;
    ReadsChildren(inner);
    var r := ReadChildren(inner);
    assert r.At? && r.value == n.children && Prefix(EndTag(n.name), r.rest) && rest == r.rest[|n.name| + 3..];
    ShapedParts(n);
    EndTagIs(n.name, tail);
    assert [] + n.children == n.children;
    ChildrenTight(n, [], n.children, end, r.rest);
    WeightOfEnd(n, tail);
    var k := |n.name| + 3;
    WeightSplit(r.rest, k);
    assert end[k..] == tail;
    if r.rest == end { AllValues(n); }
  }

  /** Sibling nodes as they are printed, with an end tag behind them. */
  ghost predicate Siblings(ns: seq<Node>, e: Str) {
    && Apart(ns) && AllPrintable(ns) && (forall c <- ns :: Shaped(c))
    && |e| > 1 && e[0] == '<' && Prefix(['<', '/'], e)
  }

  lemma NextSibling(ns: seq<Node>, e: Str)
    requires Siblings(ns, e) && ns != []
    ensures Siblings(ns[1..], e) && AllPrintable(ns[1..]) && Shaped(ns[0]) && Printable(ns[0])
    ensures PrintAll(ns) + e == Print(ns[0]) + (PrintAll(ns[1..]) + e)
    ensures ns[0].Text? ==> ns[1..] == [] || ns[1..][0].Element?
  {
    hide Shaped, Printable, AllPrintable, AllLegal, PrintAll, Print, Prefix;
    FirstPrinted(ns);
    assert ns[0] in ns && forall c <- ns[1..] :: c in ns;
    assert forall i :: 0 <= i < |ns| - 2 ==> ns[1..][i] == ns[i + 1];
    if |ns| > 1 { assert !(ns[0].Text? && ns[0 + 1].Text?); }
  }

  /** Behind a text comes a tag. */
  lemma TagNext(ns: seq<Node>, e: Str)
    requires Siblings(ns, e) && (ns == [] || ns[0].Element?)
    ensures var s := PrintAll(ns) + e; s != [] && s[0] == '<' && Skip(s) == s
  {
    hide Shaped, Printable, Print, PrintAll, Prefix;
    if ns == [] {
      NoChildren(e);
      NoSkip(e);
    } else {
      NextSibling(ns, e);
      ElementBegins(ns[0], PrintAll(ns[1..]) + e);
    }
  }

  lemma {:induction false} SiblingsWeight(ns: seq<Node>, e: Str)
    requires Siblings(ns, e)
    ensures Weight(PrintAll(ns) + e) == NodesWeight(ns) + Weight(e)
  {
    hide Weight, Shaped, Printable, Print;
    if ns == [] {
      NoChildren(e);
    } else {
      hide PrintAll;
      NextSibling(ns, e);
      PrintWeight(ns[0]);
      WeightConcat(Print(ns[0]), PrintAll(ns[1..]) + e);
      SiblingsWeight(ns[1..], e);
    }
  }

  /** Where less is left behind one child, less is left behind all of them. */
  lemma ChildWaste(done: seq<Node>, ns: seq<Node>, e: Str, t: Str, r: Str)
    requires Siblings(ns, e) && ns != [] && (t != [] ==> !IsWhiteSpace(t[0]))
    requires Weight(t) < Weight(PrintAll(ns[1..]) + e) && MoreChildren(done + [ns[0]], t) == At(done + ns, r)
    ensures Weight(r) < Weight(e)
  {
    hide MoreChildren, PrintAll, Weight, NodesWeight, Siblings;
    ReadsWeight(done + [ns[0]], t, done + ns, r);
    NextSibling(ns, e);
    SiblingsWeight(ns[1..], e);
    NodesSum(done, ns);
  }

  lemma ReadsWeight(done: seq<Node>, t: Str, all: seq<Node>, r: Str)
    requires (t != [] ==> !IsWhiteSpace(t[0])) && MoreChildren(done, t) == At(all, r)
    ensures NodesWeight(all) + Weight(r) <= NodesWeight(done) + Weight(t)
  {
    hide MoreChildren, Weight, NodesWeight;
    ReadWeight(done, t);
  }

  lemma ReadsFirst(done: seq<Node>, t: Str, all: seq<Node>, r: Str)
    requires (t != [] ==> !IsWhiteSpace(t[0])) && MoreChildren(done, t) == At(all, r)
    ensures done <= all && (t != [] && t[0] == '<' && |all| > |done| ==> all[|done|].Element?)
  {
    hide MoreChildren, Weight, NodesWeight;
    ReadWeight(done, t);
  }

  lemma NodesSum(done: seq<Node>, ns: seq<Node>)
    requires ns != []
    ensures NodesWeight(done + ns) == NodesWeight(done + [ns[0]]) + NodesWeight(ns[1..])
  {
    NodesConcat(done + [ns[0]], ns[1..]);
    assert done + [ns[0]] + ns[1..] == done + ns;
  }

  lemma NextIs(all: seq<Node>, done: seq<Node>, c: Node, ns: seq<Node>)
    requires done + [c] <= all && all == done + ns && ns != []
    ensures c == ns[0]
  {
    assert all[|done|] == (done + [c])[|done|] == c;
  }

  /** A text that comes back as the next child: either less is left, or it is such as comes
      back and all of what follows is read next. */
  lemma TextChildTight(done: seq<Node>, ns: seq<Node>, e: Str, r: Str)
    requires Siblings(ns, e) && ns != [] && ns[0].Text?
    requires MoreChildren(done, Skip(PrintAll(ns) + e)) == At(done + ns, r)
    ensures Weight(r) < Weight(e) || (ValuesOk(ns[0])
      && MoreChildren(done + [ns[0]], Skip(PrintAll(ns[1..]) + e)) == At(done + ns, r))
  {
    hide PrintAll, Weight, ParseText, Encode, HasRef, Blank, TextOk, Siblings;
    NextSibling(ns, e);
    var v := AsStr(ns[0].value);
    var more := PrintAll(ns[1..]) + e;
    TagNext(ns[1..], e);
    assert more == ['<'] + more[1..];
    StripIs(v);
    SkipsSpaces(v, more);
    Starts(Strip(v), more);
    var t := Encode(Strip(v)) + more;
    NoEndTag(t);
    ReadOneText(done, t, done + ns, r);
    var p := ParseText(t);
    TextWeight(t);
    var rest := p.rest[1..];
    assert p.rest == ['<'] + rest;
    NextIs(done + ns, done, Text(p.value), ns);
    TextTight(v, more[1..], rest);
    WeightConcat(['<'], rest);
    WeightConcat(['<'], more[1..]);
    if Weight(rest) < Weight(more[1..]) {
      NoSkip(p.rest);
      ChildWaste(done, ns, e, p.rest, r);
    }
  }

  /** One turn of the loop over children at a text, where the result has a text next. */
  lemma ReadOneText(done: seq<Node>, t: Str, all: seq<Node>, r: Str)
    requires t != [] && t[0] != '<' && !IsWhiteSpace(t[0]) && !Prefix(['<', '/'], t)
    requires MoreChildren(done, t) == At(all, r) && |all| > |done| && all[|done|].Text?
    ensures ParseText(t).At?
    ensures var p := ParseText(t);
      && p.rest != [] && p.rest[0] == '<' && !Blank(p.value) && done + [Text(p.value)] <= all
      && MoreChildren(done + [Text(p.value)], p.rest) == At(all, r)
  {
    hide MoreChildren, ParseText, Blank, Prefix, Weight, Skip;
    TextWeight(t);
    TextTurn(done, t);
    var p := ParseText(t);
    NoSkip(p.rest);
    if Blank(p.value) {
      ReadsFirst(done, p.rest, all, r);
      assert false;
    } else {
      ReadsFirst(done + [Text(p.value)], p.rest, all, r);
    }
  }

  lemma TextTurn(done: seq<Node>, t: Str)
    requires t != [] && t[0] != '<' && !IsWhiteSpace(t[0]) && !Prefix(['<', '/'], t) && MoreChildren(done, t).At?
    ensures ParseText(t).At?
    ensures var p := ParseText(t);
      p.rest != [] && MoreChildren(done, t) == MoreChildren(if Blank(p.value) then done else done + [Text(p.value)], Skip(p.rest))
  {
    hide ParseText, Blank, Prefix, ParseElement, Skip;
  }

  lemma ReadOneElement(done: seq<Node>, t: Str)
    requires |t| > 1 && t[0] == '<' && NameStart(t[1]) && !Prefix(['<', '/'], t) && MoreChildren(done, t).At?
    ensures var p := ParseElement(t); p.At? && MoreChildren(done, t) == MoreChildren(done + [p.value], Skip(p.rest))
    ensures done + [ParseElement(t).value] <= MoreChildren(done, t).value
  {
    hide ParseElement, Prefix, Weight, NodesWeight, NameStart;
    var p := ParseElement(t);
    ReadWeight(done + [p.value], Skip(p.rest));
  }

  lemma {:induction false} ChildrenTight(n: Node, done: seq<Node>, ns: seq<Node>, e: Str, r: Str)
    requires n.Element? && Siblings(ns, e) && forall c <- ns :: c in n.children
    requires MoreChildren(done, Skip(PrintAll(ns) + e)) == At(done + ns, r)
    ensures Weight(r) < Weight(e) || (r == e && forall c <- ns :: ValuesOk(c))
    decreases n, 0, |ns|
  {
    hide PrintAll, Print, Weight, ParseElement, ValuesOk, Skip, Siblings, NameStart, Shaped, Printable;
    if ns == [] {
      TagNext(ns, e);
      NoChildren(e);
      EndsHere(done, ns, e);
    } else {
      hide MoreChildren;
      NextSibling(ns, e);
      assert ns == [ns[0]] + ns[1..] && done + [ns[0]] + ns[1..] == done + ns;
      var more := PrintAll(ns[1..]) + e;
      if ns[0].Text? {
        TextChildTight(done, ns, e, r);
      } else {
        var t := Print(ns[0]) + more;
        assert ns[0] in n.children;
        ElementBegins(ns[0], more);
        ReadOneElement(done, t);
        var p := ParseElement(t);
        NextIs(done + ns, done, p.value, ns);
        ElementTight(ns[0], more, p.rest);
        SkipWeight(p.rest);
        if Weight(p.rest) < Weight(more) { ChildWaste(done, ns, e, Skip(p.rest), r); }
      }
      if Weight(r) >= Weight(e) { ChildrenTight(n, done + [ns[0]], ns[1..], e, r); }
    }
  }

  lemma EndsHere(done: seq<Node>, ns: seq<Node>, e: Str)
    requires Siblings(ns, e)
    ensures !IsWhiteSpace(e[0]) && MoreChildren(done, e) == At(done, e)
  {
  }

  // ----- Documents -----

  /** A printed element is parsed back, and what stands behind it left, exactly if its values
      are such as come back. */
  lemma ElementExactly(n: Node, tail: Str)
    requires n.Element? && Shaped(n) && Printable(n)
    ensures ParseElement(Print(n) + tail) == At(n, tail) <==> ValuesOk(n)
  {
    hide ParseElement, Print, Shaped, Printable, ValuesOk, Weight, Legal;
    if ParseElement(Print(n) + tail) == At(n, tail) { ElementTight(n, tail, tail); }
    if ValuesOk(n) {
      LegalIs(n);
      ElementParsed(n, tail);
    }
  }

  lemma {:induction false} NodesGrow(done: seq<Node>, t: Str)
    requires t != [] ==> !IsWhiteSpace(t[0])
    ensures var r := ParseNodes(done, t); r.At? ==> |r.value| >= |done| && (t == [] || t[0] != '<' || |r.value| > |done|)
    decreases |t|
  {
    hide ParseElement, NameStart;
    if |t| > 1 && t[0] == '<' && NameStart(t[1]) {
      var p := ParseElement(t);
      if p.At? { NodesGrow(done + [p.value], Skip(p.rest)); }
    }
  }

  lemma OneNodeParsed(s: Str, n: Node)
    requires |s| > 1 && s[0] == '<' && NameStart(s[1]) && ParseDocument(s) == At([n], [])
    ensures ParseElement(s).At? && ParseElement(s).value == n
  {
    hide ParseElement, NameStart;
    NoSkip(s);
    var p := ParseElement(s);
    assert p.At?;
    var t := Skip(p.rest);
    assert [] + [p.value] == [p.value];
    NodesGrow([p.value], t);
  }

  /** The same for a whole document. */
  lemma DocumentExactly(n: Node)
    requires n.Element? && Shaped(n) && Printable(n)
    ensures ParseDocument(Print(n)) == At([n], []) <==> ValuesOk(n)
  {
    hide ParseElement, ParseDocument, Print, Shaped, Printable, ValuesOk, Weight, Legal, NameStart;
    if ParseDocument(Print(n)) == At([n], []) {
      ElementBegins(n, []);
      assert Print(n) + [] == Print(n);
      OneNodeParsed(Print(n), n);
      ElementTight(n, [], ParseElement(Print(n)).rest);
      NoWeight();
    }
    if ValuesOk(n) {
      LegalIs(n);
      DocumentRoundTrip(n);
    }
  }

  lemma NoWeight()
    ensures Weight([]) == 0
  {
  }

  /** Whatever text is parsed as an element that can be printed: printing the element and
      parsing it once more gives the same element exactly if its values are such as come
      back. */
  lemma ParsedAgainExactly(s: Str)
    requires ParseElement(s).At? && Printable(ParseElement(s).value)
    ensures var n := ParseElement(s).value; ParseDocument(Print(n)) == At([n], []) <==> ValuesOk(n)
  {
    hide ParseElement, ParseDocument, Print, Shaped, Printable, ValuesOk;
    ElementShaped(s);
    DocumentExactly(ParseElement(s).value);
  }

  // ----- Two elements that do not come back -----

  const A: Str := ['a']
  const B: Str := ['b']

  /** The element "a" with the attribute "b" and no children. */
  function WithValue(v: seq<char>): Node {
    Element(A, [Attr(B, v)], [])
  }

  function WithText(v: seq<char>): Node {
    Element(A, [], [Text(v)])
  }

  lemma NamesAB()
    ensures NameOk(A) && NameOk(B)
  {
  }

  lemma ValueRead(q: Str, v: seq<char>, end: Str)
    requires end == ['/', '>'] || end == [' ', '/', '>']
    requires ReadKeep(q + ['\"'] + end, '\"', []) == ReadTo(v, end)
    ensures ParseElement(['<', 'a', ' ', 'b', '=', '\"'] + (q + ['\"'] + end)) == At(WithValue(v), [])
  {
    hide ReadKeep, ReadName, NameOk, NameStart, NameChar;
    var inner := q + ['\"'] + end;
    var value := ['=', '\"'] + inner;
    var s := ['<', 'a', ' ', 'b', '=', '\"'] + inner;
    NamesAB();
    Separators();
    NamedStart(B, value);
    assert s[1..] == A + ([' '] + (B + value));
    NameRead(A, [' '] + (B + value));
    NameRead(B, value);
    assert ([' '] + (B + value))[1..] == B + value && value[1..] == ['\"'] + inner && (['\"'] + inner)[1..] == inner;
    assert B[0] == 'b' && A[0] == 'a';
    assert ParseAttribute(B + value) == At(Attr(B, v), end);
    SlashEnds(end, [Attr(B, v)]);
    assert [] + [Attr(B, v)] == [Attr(B, v)];
  }

  lemma SlashEnds(end: Str, attrs: seq<Attr>)
    requires end == ['/', '>'] || end == [' ', '/', '>']
    ensures ParseAttributes(A, attrs, end) == At(Element(A, attrs, []), [])
  {
    assert end == [' ', '/', '>'] ==> end[1..] == ['/', '>'];
    assert ['/', '>'][2..] == [];
  }

  /** From <a b="&amp;#x41;"/> an element is parsed that prints as <a b="&#x41;" />, and from
      that one with another value is parsed. */
  lemma ValueNotAgain()
    ensures var n := WithValue(['&'] + REST);
      && ParseElement(['<', 'a', ' ', 'b', '=', '\"'] + (AMP + REST + ['\"'] + ['/', '>'])) == At(n, [])
      && Printable(n) && ParseElement(Print(n)) == At(WithValue(['A']), []) && ParseDocument(Print(n)) != At([n], [])
  {
    hide ReadKeep, ParseElement, ParseDocument, Encode, HasRef, NameOk, ValuesOk, Shaped;
    var n := WithValue(['&'] + REST);
    var end := [' ', '/', '>'];
    ReadsOnce(['/', '>']);
    ValueRead(AMP + REST, ['&'] + REST, ['/', '>']);
    NamesA(end);
    ValueRead(['&'] + REST, ['A'], end);
    WithValueShaped();
    DocumentExactly(n);
  }

  lemma WithValueShaped()
    ensures var n := WithValue(['&'] + REST);
      && Printable(n) && Shaped(n) && !ValuesOk(n)
      && Print(n) == ['<', 'a', ' ', 'b', '=', '\"'] + (['&'] + REST + ['\"'] + [' ', '/', '>'])
  {
    hide Encode, HasRef, ValueOk, NameOk;
    var v: Str := ['&'] + REST;
    var n := WithValue(v);
    NamesAB();
    RefValue();
    assert n.attrs[0].value == v;
    ValuePrinted(v);
  }

  lemma RefValue()
    ensures var v: Str := ['&'] + REST; CString(v) && !ValueOk(v) && Encode(v) == v && '\"' !in v
  {
    hide Encode;
    Renamed();
    assert ['&'] + REST == ['&', '#', 'x', '4', '1', ';'];
    assert RefHere(['&'] + REST);
  }

  lemma ValuePrinted(v: Str)
    requires '\"' !in v && Encode(v) == v && Printable(WithValue(v))
    ensures Print(WithValue(v)) == ['<', 'a', ' ', 'b', '=', '\"'] + (v + ['\"'] + [' ', '/', '>'])
  {
    hide Encode;
    NameEncoded(B);
    var a := Attr(B, v);
    assert PrintAttrs([a][1..]) == [];
    assert PrintAttrs([a]) == [' '] + PrintAttr(a);
    assert PrintAttr(a) == B + ['=', '\"'] + v + ['\"'];
  }

  // The text "&#32;b" names a space, which is not skipped; printed as such it is.

  const NAMED: Str := ['&', '#', '3', '2', ';', 'b']
  const SPACED: Str := [' ', 'b']

  lemma TextRead(text: Str, v: seq<char>)
    requires !Blank(v) && Skip(text + EndTag(A)) != []
    requires var t := Skip(text + EndTag(A)); t[0] != '<' && ParseText(t) == At(v, EndTag(A))
    ensures ParseElement(['<', 'a', '>'] + (text + EndTag(A))) == At(WithText(v), [])
  {
    hide ParseText, Blank, EndTag, ReadName, NameOk, NameChar, NameStart;
    var inner := text + EndTag(A);
    var s := ['<', 'a', '>'] + inner;
    var t := Skip(inner);
    NamesAB();
    Separators();
    NamedStart(A, ['>'] + inner);
    assert s[1..] == A + (['>'] + inner);
    NameRead(A, ['>'] + inner);
    NoEndTag(t);
    TagLast();
    assert [] + [Text(v)] == [Text(v)];
    assert MoreChildren([Text(v)], EndTag(A)) == At([Text(v)], EndTag(A));
    ReadsChildren(inner);
    assert ReadChildren(inner) == At([Text(v)], EndTag(A) + []);
    OpenTag(A, [], inner, [Text(v)], []);
  }

  lemma TagLast()
    ensures var e := EndTag(A); e != [] && !IsWhiteSpace(e[0]) && Skip(e) == e && Prefix(['<', '/'], e) && e + [] == e
  {
    EndTagIs(A, []);
    assert EndTag(A) + [] == EndTag(A);
  }

  lemma TrimB(acc: seq<char>)
    ensures var t: Str := ['b'] + EndTag(A); Skip(t) == t && ReadTrim(t, '<', acc, false) == ReadTo(acc + ['b'], EndTag(A)[1..])
    ensures ['<'] + EndTag(A)[1..] == EndTag(A)
  {
    var t: Str := ['b'] + EndTag(A);
    assert t[1..] == EndTag(A) && GetChar(t) == Got(['b'], EndTag(A));
    assert acc + [] + ['b'] == acc + ['b'];
    assert ReadTrim(EndTag(A), '<', acc + ['b'], false) == ReadTo(acc + ['b'], EndTag(A)[1..]);
  }

  lemma NamedRead()
    ensures var t := NAMED + EndTag(A); Skip(t) == t && ParseText(t) == At(SPACED, EndTag(A)) && !Blank(SPACED)
  {
    hide EndTag;
    var t := NAMED + EndTag(A);
    assert t[0] == '&' && t[1] == '#' && t[2] == '3' && t[3] == '2' && t[4] == ';';
    FindIs(t, ';', 2, 4);
    assert DigitsBack(t, 1, '#', 10) == Number(0);
    assert DigitsBack(t, 2, '#', 10) == Number(3);
    assert DigitsBack(t, 3, '#', 10) == Number(32);
    assert CharRef(t, 4, '#', 10) == Got([(32 % 256) as char], t[5..]);
    var more: Str := ['b'] + EndTag(A);
    assert t[5..] == more && GetChar(t) == Got([' '], more);
    assert [] + [] + [' '] == [' '];
    assert ReadTrim(t, '<', [], false) == ReadTrim(more, '<', [' '], false);
    TrimB([' ']);
    assert [' '] + ['b'] == SPACED;
    HasB();
  }

  lemma HasB()
    ensures !Blank(SPACED) && !Blank(['b'])
  {
    assert 'b' in SPACED && 'b' in ['b'];
  }

  lemma PlainRead()
    ensures var t := Skip(SPACED + EndTag(A)); t != [] && t[0] != '<' && ParseText(t) == At(['b'], EndTag(A)) && !Blank(['b'])
  {
    hide EndTag, ReadTrim;
    var t: Str := ['b'] + EndTag(A);
    assert (SPACED + EndTag(A))[1..] == t;
    TrimB([]);
    assert [] + ['b'] == ['b'];
    HasB();
  }

  lemma WithTextShaped()
    ensures var n := WithText(SPACED);
      && Printable(n) && Shaped(n) && !ValuesOk(n) && Print(n) == ['<', 'a', '>'] + (SPACED + EndTag(A))
  {
    hide Encode, EndTag, NameOk, Blank;
    var n := WithText(SPACED);
    NamesAB();
    HasB();
    assert SPACED[0] == ' ';
    assert !ValuesOk(Text(SPACED)) && Shaped(Text(SPACED));
    SpacedEncoded();
    assert n.children[0] == Text(SPACED);
    assert PrintAll([Text(SPACED)][1..]) == [];
    assert Print(Text(SPACED)) == SPACED;
    assert PrintAll(n.children) == SPACED + [];
    assert PrintAttrs([]) == [];
  }

  lemma SpacedEncoded()
    ensures Encode(SPACED) == SPACED
  {
    assert SPACED[1..] == ['b'] && ['b'][1..] == [];
    assert Encode(['b']) == ['b'] + Encode([]);
  }

  /** From <a>&#32;b</a> an element with the text " b" is parsed, and from what it prints
      one with the text "b". */
  lemma TextNotAgain()
    ensures var n := WithText(SPACED);
      && ParseElement(['<', 'a', '>'] + (NAMED + EndTag(A))) == At(n, [])
      && Printable(n) && ParseElement(Print(n)) == At(WithText(['b']), []) && ParseDocument(Print(n)) != At([n], [])
  {
    hide ParseText, ParseElement, ParseDocument, Print, Blank, EndTag, Skip, ValuesOk, Shaped, Printable;
    NamedRead();
    assert (NAMED + EndTag(A))[0] == '&';
    TextRead(NAMED, SPACED);
    PlainRead();
    TextRead(SPACED, ['b']);
    WithTextShaped();
    DocumentExactly(WithText(SPACED));
  }
}
