/** The end-of-line loop of TiXmlDocument::LoadFile (NSP/tinyxml.cpp), after section 2.11
    of XML 1.0. */
module XmlLines {
  import opened Sequences

  /** Every line end, CR LF, CR or LF, becomes one LF. */
  function Normal(s: string): string {
    if s == [] then []
    else if s[0] != '\r' then [s[0]] + Normal(s[1..])
    else if |s| > 1 && s[1] == '\n' then ['\n'] + Normal(s[2..])
    else ['\n'] + Normal(s[1..])
  }

  /** What the loop has in front of it: the buffer as far as its first terminator. */
  function Terminated(s: string): string {
    if s == [] || s[0] == '\0' then [] else [s[0]] + Terminated(s[1..])
  }

  ghost function FirstZero(s: string): (n: nat)
    requires s != [] && s[|s| - 1] == '\0'
    ensures n < |s| && s[n] == '\0' && s[..n] == Terminated(s) && forall i :: 0 <= i < n ==> s[i] != '\0'
  {
    if s[0] == '\0' then 0
    else
      var n := FirstZero(s[1..]);
      assert s[..n + 1] == [s[0]] + s[1..][..n];
      assert forall i :: 0 < i < n + 1 ==> s[i] == s[1..][i - 1];
      n + 1
  }

  lemma NormalStep(s: string)
    requires s != []
    ensures s[0] != '\r' ==> Normal(s) == [s[0]] + Normal(s[1..])
    ensures s[0] == '\r' && |s| > 1 && s[1] == '\n' ==> Normal(s) == ['\n'] + Normal(s[2..])
    ensures s[0] == '\r' && !(|s| > 1 && s[1] == '\n') ==> Normal(s) == ['\n'] + Normal(s[1..])
  {
  }

  lemma {:induction false} PlainNormal(a: string, s: string)
    requires '\r' !in a
    ensures Normal(a + s) == a + Normal(s)
  {
    hide Normal;
    if a == [] {
      assert a + s == s;
    } else {
      assert a == [a[0]] + a[1..] && (a + s)[1..] == a[1..] + s;
      NormalStep(a + s);
      PlainNormal(a[1..], s);
    }
  }

  /** One round of the loop: what the text from lastPos on becomes. */
  lemma Round(buf: string, end: nat, lastPos: nat, p: nat)
    requires lastPos <= p < end < |buf| && buf[end] == '\0' && '\r' !in buf[lastPos..p]
    ensures var all := Normal(buf[lastPos..end]);
      && (buf[p] == '\n' ==> all == buf[lastPos..p + 1] + Normal(buf[p + 1..end]))
      && (buf[p] == '\r' && buf[p + 1] == '\n' ==> p + 2 <= end && all == buf[lastPos..p] + ['\n'] + Normal(buf[p + 2..end]))
      && (buf[p] == '\r' && buf[p + 1] != '\n' ==> all == buf[lastPos..p] + ['\n'] + Normal(buf[p + 1..end]))
  {
    hide Normal;
    var piece, rest := buf[lastPos..p], buf[p..end];
    assert buf[lastPos..end] == piece + rest;
    PlainNormal(piece, rest);
    NormalStep(rest);
    assert rest[1..] == buf[p + 1..end];
    if buf[p] == '\n' { assert piece + ['\n'] == buf[lastPos..p + 1]; }
    if p + 2 <= end { assert rest[2..] == buf[p + 2..end]; }
  }

  lemma LeftOver(buf: string, lastPos: nat, end: nat)
    requires lastPos <= end <= |buf| && '\r' !in buf[lastPos..end]
    ensures Normal(buf[lastPos..end]) == buf[lastPos..end]
  {
    PlainNormal(buf[lastPos..end], []);
    assert buf[lastPos..end] + [] == buf[lastPos..end];
  }

  /** The loop, on a buffer that ends with a terminator: text between line ends is copied
      in one piece. */
  method NormaliseLines(buf: string) returns (data: string)
    requires buf != [] && buf[|buf| - 1] == '\0'
    ensures data == Normal(Terminated(buf))
  {
    hide Normal;
    ghost var end := FirstZero(buf);
    ghost var text := Normal(buf[0..end]);
    data := [];
    var lastPos, p := 0, 0;
    while buf[p] != '\0'
      invariant 0 <= lastPos <= p <= end && '\r' !in buf[lastPos..p]
      invariant data + Normal(buf[lastPos..end]) == text
      decreases end - p
    {
      ghost var before, x := data, buf[lastPos..p];
      Round(buf, end, lastPos, p);
      if buf[p] == '\n' {
        data := data + buf[lastPos..p + 1];
        Regroup(before, buf[lastPos..p + 1], [], Normal(buf[p + 1..end]));
        p := p + 1;
        lastPos := p;
      } else if buf[p] == '\r' {
        if p - lastPos > 0 {
          data := data + buf[lastPos..p];
        }
        data := data + ['\n'];
        assert data == before + x + ['\n'];
        p := if buf[p + 1] == '\n' then p + 2 else p + 1;
        lastPos := p;
        Regroup(before, x, ['\n'], Normal(buf[p..end]));
      } else {
        p := p + 1;
      }
    }
    LeftOver(buf, lastPos, end);
    if p - lastPos > 0 {
      data := data + buf[lastPos..p];
    }
  }

  lemma NothingNormal()
    ensures Normal([]) == []
  {
  }

  // ----- What the loop is for -----

  function Count(s: string, c: char): nat {
    if s == [] then 0 else (if s[0] == c then 1 else 0) + Count(s[1..], c)
  }

  /** How often a CR stands right before an LF. */
  function Pairs(s: string): nat {
    if |s| < 2 then 0 else (if s[0] == '\r' && s[1] == '\n' then 1 else 0) + Pairs(s[1..])
  }

  /** The text without its line ends. */
  function Others(s: string): string {
    if s == [] then []
    else (if s[0] == '\r' || s[0] == '\n' then [] else [s[0]]) + Others(s[1..])
  }

  /** No carriage return is left, every line end is still one, and nothing else changed. */
  lemma {:induction false} LinesNormal(s: string)
    ensures '\r' !in Normal(s)
    ensures Count(Normal(s), '\n') == Count(s, '\r') + Count(s, '\n') - Pairs(s)
    ensures Others(Normal(s)) == Others(s)
    decreases |s|
  {
    if s != [] {
      var n := if s[0] == '\r' && |s| > 1 && s[1] == '\n' then 2 else 1;
      LinesNormal(s[n..]);
      NormalStep(s);
      hide Normal;
      assert Normal(s)[1..] == Normal(s[n..]);
      if n == 2 { assert s[1..][1..] == s[2..]; }
    }
  }

  /** Text without carriage returns stays as it is, so a second pass changes nothing. */
  lemma NormalTwice(s: string)
    ensures Normal(Normal(s)) == Normal(s)
    ensures '\r' !in s ==> Normal(s) == s
  {
    LinesNormal(s);
    NothingNormal();
    PlainNormal(Normal(s), []);
    assert Normal(s) + [] == Normal(s) && s + [] == s;
    if '\r' !in s { PlainNormal(s, []); }
  }
}
