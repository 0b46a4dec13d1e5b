/** The query tokenizer: blanks separate tokens except inside quotes. */
module Tokenizer {

  datatype Quote = Outside | Single | Double

  /** What the scanner carries from character to character. */
  datatype State = State(tokens: seq<string>, current: string, quote: Quote)

  const START := State([], "", Outside)

  predicate Blank(c: char) {
    c == ' ' || c == '\t' || c == '\n'
  }

  function QuoteStep(q: Quote, c: char): Quote {
    if c == '\'' && q != Double then (if q == Single then Outside else Single)
    else if c == '"' && q != Single then (if q == Double then Outside else Double)
    else q
  }

  function Flush(st: State): State {
    if st.current == "" then st else st.(tokens := st.tokens + [st.current], current := "")
  }

  function Step(st: State, c: char): State {
    if Blank(c) && st.quote == Outside then Flush(st)
    else st.(current := st.current + [c], quote := QuoteStep(st.quote, c))
  }

  function Scan(st: State, s: string): State {
    if s == "" then st else Step(Scan(st, s[..|s| - 1]), s[|s| - 1])
  }

  function Tokens(s: string): seq<string> {
    Flush(Scan(START, s)).tokens
  }

  method Tokenize(input: string) returns (tokens: seq<string>)
    ensures tokens == Tokens(input)
  {
    tokens := [];
    var current := "";
    var inSingle, inDouble := false, false;
    for i := 0 to |input|
      invariant !(inSingle && inDouble)
      invariant Scan(START, input[..i]) ==
        State(tokens, current, if inSingle then Single else if inDouble then Double else Outside)
    {
      assert input[..i + 1][..i] == input[..i];
      var ch := input[i];
      if ch == '\'' && !inDouble {
        inSingle := !inSingle;
        current := current + [ch];
      } else if ch == '"' && !inSingle {
        inDouble := !inDouble;
        current := current + [ch];
      } else if Blank(ch) && !inSingle && !inDouble {
        if current != "" {
          tokens, current := tokens + [current], "";
        }
      } else {
        current := current + [ch];
      }
    }
    assert input[..|input|] == input;
    if current != "" {
      tokens := tokens + [current];
    }
  }

  // ---- What quotes enclose -----------------------------------------------------------

  function Concat(ts: seq<string>): string {
    if ts == [] then "" else Concat(ts[..|ts| - 1]) + ts[|ts| - 1]
  }

  predicate Plain(p: string) {
    '\'' !in p && '"' !in p
  }

  /** A quote, anything but that quote, and that quote again. */
  ghost predicate Span(p: string) {
    exists q, inner :: q in {'\'', '"'} && q !in inner && p == [q] + inner + [q]
  }

  ghost predicate Pieces(ps: seq<string>) {
    forall k :: 0 <= k < |ps| ==> Plain(ps[k]) || Span(ps[k])
  }

  /** Every quote is closed: the text is made of plain pieces and spans. */
  ghost predicate Closed(s: string) {
    exists ps :: Pieces(ps) && Concat(ps) == s
  }

  /** A quote opened after closed text is still open at the end. */
  ghost predicate OpenedBy(s: string, q: char) {
    exists front, inner :: Closed(front) && q !in inner && s == front + [q] + inner
  }

  /** The quote state after reading `s`. */
  function After(q: Quote, s: string): Quote {
    if s == "" then q else QuoteStep(After(q, s[..|s| - 1]), s[|s| - 1])
  }

  lemma {:induction false} AfterConcat(q: Quote, a: string, b: string)
    ensures After(q, a + b) == After(After(q, a), b)
    decreases |b|
  {
    if b == "" {
      assert a + b == a;
    } else {
      AfterConcat(q, a, b[..|b| - 1]);
      assert (a + b)[..|a + b| - 1] == a + b[..|b| - 1];
    }
  }

  /** Characters that neither open nor close leave the state as it is. */
  lemma {:induction false} AfterInner(q: Quote, s: string)
    requires match q case Outside => Plain(s) case Single => '\'' !in s case Double => '"' !in s
    ensures After(q, s) == q
  {
    if s != "" {
      AfterInner(q, s[..|s| - 1]);
    }
  }

  function Opens(q: char): Quote {
    if q == '\'' then Single else Double
  }

  lemma AfterOpen(q: char, inner: string)
    requires q in {'\'', '"'} && q !in inner
    ensures After(Outside, [q] + inner) == Opens(q)
  {
    AfterConcat(Outside, [q], inner);
    assert [q][..0] == "";
    AfterInner(Opens(q), inner);
  }

  lemma AfterPiece(p: string)
    requires Plain(p) || Span(p)
    ensures After(Outside, p) == Outside
  {
    if Plain(p) {
      AfterInner(Outside, p);
    } else {
      var q, inner :| q in {'\'', '"'} && q !in inner && p == [q] + inner + [q];
      AfterOpen(q, inner);
      AfterConcat(Outside, [q] + inner, [q]);
      assert [q][..0] == "";
    }
  }

  lemma {:induction false} AfterPieces(ps: seq<string>)
    requires Pieces(ps)
    ensures After(Outside, Concat(ps)) == Outside
  {
    if ps != [] {
      var n := |ps| - 1;
      AfterPieces(ps[..n]);
      AfterPiece(ps[n]);
      AfterConcat(Outside, Concat(ps[..n]), ps[n]);
    }
  }

  lemma AfterClosed(s: string)
    requires Closed(s)
    ensures After(Outside, s) == Outside
  {
    var ps :| Pieces(ps) && Concat(ps) == s;
    AfterPieces(ps);
  }

  lemma AfterOpened(s: string, q: char)
    requires q in {'\'', '"'} && OpenedBy(s, q)
    ensures After(Outside, s) == Opens(q)
  {
    var front, inner :| Closed(front) && q !in inner && s == front + [q] + inner;
    AfterClosed(front);
    AfterOpen(q, inner);
    AfterConcat(Outside, front, [q] + inner);
    assert s == front + ([q] + inner);
  }

  lemma ClosedLonger(s: string, p: string)
    requires Closed(s) && (Plain(p) || Span(p))
    ensures Closed(s + p)
  {
    hide Plain, Span;
    var ps :| Pieces(ps) && Concat(ps) == s;
    assert (ps + [p])[..|ps|] == ps;
    assert Pieces(ps + [p]) && Concat(ps + [p]) == s + p;
  }

  lemma OpenedLonger(s: string, q: char, c: char)
    requires q in {'\'', '"'} && OpenedBy(s, q)
    ensures if c == q then Closed(s + [c]) else OpenedBy(s + [c], q)
  {
    hide Closed;
    var front, inner :| Closed(front) && q !in inner && s == front + [q] + inner;
    if c == q {
      assert Span([q] + inner + [q]);
      ClosedLonger(front, [q] + inner + [q]);
      assert s + [c] == front + ([q] + inner + [q]);
    } else {
      assert q !in inner + [c] && s + [c] == front + [q] + (inner + [c]);
    }
  }

  /** Every text is closed, or open in one of the two quotes. */
  lemma {:induction false} ClosedOrOpened(s: string)
    ensures Closed(s) || OpenedBy(s, '\'') || OpenedBy(s, '"')
  {
    if s == "" {
      var none: seq<string> := [];
      assert Pieces(none) && Concat(none) == s;
    } else {
      hide Closed, OpenedBy;
      var n := |s| - 1;
      var c := s[n];
      assert s == s[..n] + [c];
      ClosedOrOpened(s[..n]);
      if Closed(s[..n]) {
        if c in {'\'', '"'} {
          JustOpened(s[..n], c);
        } else {
          ClosedLonger(s[..n], [c]);
        }
      } else {
        OpenedLonger(s[..n], if OpenedBy(s[..n], '"') then '"' else '\'', c);
      }
    }
  }

  lemma JustOpened(s: string, q: char)
    requires Closed(s)
    ensures OpenedBy(s + [q], q)
  {
    var none := "";
    assert q !in none && s + [q] == s + [q] + none;
  }

  /**
   * What the scanner's two flags mean: outside quotes exactly when the text so
   * far is plain pieces and spans, inside one quote exactly when such text is
   * followed by that quote and not by another one of its kind. The other kind
   * of quote is a character like any other there.
   */
  lemma QuotesExactly(s: string)
    ensures After(Outside, s) == Outside <==> Closed(s)
    ensures After(Outside, s) == Single <==> OpenedBy(s, '\'')
    ensures After(Outside, s) == Double <==> OpenedBy(s, '"')
  {
    hide Closed, OpenedBy, After;
    ClosedOrOpened(s);
    if Closed(s) {
      AfterClosed(s);
    }
    if OpenedBy(s, '\'') {
      AfterOpened(s, '\'');
    }
    if OpenedBy(s, '"') {
      AfterOpened(s, '"');
    }
  }

  // ---- What a token is ---------------------------------------------------------------

  /** A blank outside quotes stands at `i`. */
  ghost predicate Separator(s: string, i: int)
    requires 0 <= i < |s|
  {
    s[i] in {' ', '\t', '\n'} && Closed(s[..i])
  }

  ghost predicate Unbroken(t: string) {
    forall i :: 0 <= i < |t| ==> !Separator(t, i)
  }

  ghost predicate IsToken(t: string) {
    t != "" && Unbroken(t)
  }

  /** Every quote is closed except perhaps in the last token. */
  ghost predicate WellFormed(ts: seq<string>) {
    && (forall k :: 0 <= k < |ts| ==> IsToken(ts[k]))
    && (forall k :: 0 <= k < |ts| - 1 ==> Closed(ts[k]))
  }

  predicate AllBlank(g: string) {
    forall i :: 0 <= i < |g| ==> g[i] in {' ', '\t', '\n'}
  }

  /** Blanks around the tokens, at least one between two, none after an open quote. */
  ghost predicate Separates(gaps: seq<string>, ts: seq<string>) {
    && |gaps| == |ts| + 1
    && (forall k :: 0 <= k < |gaps| ==> AllBlank(gaps[k]))
    && (forall k :: 0 < k < |ts| ==> gaps[k] != "")
    && (ts != [] && !Closed(ts[|ts| - 1]) ==> gaps[|ts|] == "")
  }

  /** A gap, a token, a gap, and so on to a last gap. */
  function Laid(gaps: seq<string>, ts: seq<string>): string
    requires |gaps| == |ts| + 1
    decreases |ts|
  {
    if ts == [] then gaps[0]
    else
      var n := |ts| - 1;
      Laid(gaps[..n + 1], ts[..n]) + ts[n] + gaps[n + 1]
  }

  // ---- Scanning pieces ----------------------------------------------------------------

  lemma {:induction false} ScanConcat(st: State, a: string, b: string)
    ensures Scan(st, a + b) == Scan(Scan(st, a), b)
    decreases |b|
  {
    if b == "" {
      assert a + b == a;
    } else {
      var n := |b| - 1;
      ScanConcat(st, a, b[..n]);
      assert (a + b)[..|a + b| - 1] == a + b[..n];
    }
  }

  lemma {:induction false} ScanGap(st: State, g: string)
    requires st.quote == Outside && AllBlank(g)
    ensures Scan(st, g) == if g == "" then st else Flush(st)
  {
    if g != "" {
      ScanGap(st, g[..|g| - 1]);
    }
  }

  /** One character more breaks a token exactly when it is a blank outside quotes. */
  lemma UnbrokenLonger(t: string, c: char)
    ensures Unbroken(t + [c]) <==> Unbroken(t) && !(Blank(c) && After(Outside, t) == Outside)
  {
    hide Closed, After;
    QuotesExactly(t);
    assert (t + [c])[..|t|] == t;
    forall i | 0 <= i < |t| ensures Separator(t, i) <==> Separator(t + [c], i) {
      assert (t + [c])[..i] == t[..i];
    }
    if Unbroken(t + [c]) {
      assert !Separator(t + [c], |t|);
      forall i | 0 <= i < |t| ensures !Separator(t, i) {
        assert !Separator(t + [c], i);
      }
    }
  }

  lemma {:induction false} ScanToken(ts: seq<string>, t: string)
    requires Unbroken(t)
    ensures Scan(State(ts, "", Outside), t) == State(ts, t, After(Outside, t))
  {
    hide Unbroken;
    if t != "" {
      var n := |t| - 1;
      assert t == t[..n] + [t[n]];
      UnbrokenLonger(t[..n], t[n]);
      ScanToken(ts, t[..n]);
    }
  }

  lemma ScanTokenAndGap(ts: seq<string>, t: string, g: string)
    requires IsToken(t) && AllBlank(g) && (!Closed(t) ==> g == "")
    ensures var st := Scan(State(ts, "", Outside), t + g);
      Flush(st).tokens == ts + [t] && (g != "" ==> st == State(ts + [t], "", Outside))
  {
    ScanConcat(State(ts, "", Outside), t, g);
    ScanToken(ts, t);
    QuotesExactly(t);
    if Closed(t) {
      ScanGap(State(ts, t, Outside), g);
    }
  }

  /** Without its last token and the gap behind it a layout is one still. */
  lemma FrontSeparates(gaps: seq<string>, ts: seq<string>)
    requires WellFormed(ts) && Separates(gaps, ts) && ts != []
    ensures var n := |ts| - 1;
      && WellFormed(ts[..n]) && Separates(gaps[..n + 1], ts[..n])
      && IsToken(ts[n]) && AllBlank(gaps[n + 1]) && (!Closed(ts[n]) ==> gaps[n + 1] == "") && (n > 0 ==> gaps[n] != "")
  {
    hide IsToken, AllBlank, Closed;
  }

  lemma ScanFromLayout(ts: seq<string>, front: string, t: string, g: string)
    requires Scan(START, front) == State(ts, "", Outside)
    requires IsToken(t) && AllBlank(g) && (!Closed(t) ==> g == "")
    ensures var st := Scan(START, front + t + g);
      Flush(st).tokens == ts + [t] && (g != "" ==> st == State(ts + [t], "", Outside))
  {
    hide Scan, IsToken, AllBlank, Closed;
    assert front + t + g == front + (t + g);
    ScanConcat(START, front, t + g);
    ScanTokenAndGap(ts, t, g);
  }

  /** Flushed after its last token, a layout has scanned to its tokens. */
  lemma {:induction false} ScanLaid(gaps: seq<string>, ts: seq<string>)
    requires WellFormed(ts) && Separates(gaps, ts)
    ensures Flush(Scan(START, Laid(gaps, ts))).tokens == ts
    ensures gaps[|ts|] != "" || ts == [] ==> Scan(START, Laid(gaps, ts)) == State(ts, "", Outside)
    decreases |ts|
  {
    if ts == [] {
      ScanGap(START, gaps[0]);
    } else {
      FrontSeparates(gaps, ts);
      hide Scan, IsToken, AllBlank, Closed, WellFormed, Separates;
      var n := |ts| - 1;
      var before, t := ts[..n], ts[n];
      ScanLaid(gaps[..n + 1], before);
      ScanFromLayout(before, Laid(gaps[..n + 1], before), t, gaps[n + 1]);
      assert ts == before + [t];
    }
  }

  // ---- Every text is a layout of its tokens ---------------------------------------------

  /** In mid-scan: the finished tokens are laid out, and the current one follows. */
  ghost predicate MidLayout(st: State, s: string, gaps: seq<string>) {
    && |gaps| == |st.tokens| + 1 && s == Laid(gaps, st.tokens) + st.current
    && (forall k :: 0 <= k < |gaps| ==> AllBlank(gaps[k])) && (forall k :: 0 < k < |gaps| ==> gaps[k] != "")
    && (forall k :: 0 <= k < |st.tokens| ==> IsToken(st.tokens[k]) && Closed(st.tokens[k]))
    && (st.current == "" || IsToken(st.current)) && st.quote == After(Outside, st.current)
  }

  lemma NothingLaid()
    ensures MidLayout(START, "", [""])
  {
  }

  lemma {:induction false} ScanLayout(s: string) returns (gaps: seq<string>)
    ensures MidLayout(Scan(START, s), s, gaps)
  {
    hide MidLayout;
    if s == "" {
      NothingLaid();
      gaps := [""];
    } else {
      var n := |s| - 1;
      gaps := ScanLayout(s[..n]);
      assert s == s[..n] + [s[n]];
      if Blank(s[n]) && Scan(START, s[..n]).quote == Outside {
        gaps := FlushLayout(Scan(START, s[..n]), s[..n], gaps, s[n]);
      } else {
        GrowLayout(Scan(START, s[..n]), s[..n], gaps, s[n]);
      }
    }
  }

  lemma FlushLayout(st: State, s: string, gaps: seq<string>, c: char) returns (gaps': seq<string>)
    requires MidLayout(st, s, gaps) && Blank(c) && st.quote == Outside
    ensures MidLayout(Flush(st), s + [c], gaps')
  {
    hide Closed, Unbroken, AllBlank;
    assert AllBlank([c]) by { OneBlank(c); }
    QuotesExactly(st.current);
    if st.current == "" {
      gaps' := WidenLastGap(gaps, st.tokens, c);
    } else {
      gaps' := gaps + [[c]];
      assert (st.tokens + [st.current])[..|st.tokens|] == st.tokens && gaps'[..|gaps|] == gaps;
      assert Laid(gaps', Flush(st).tokens) == s + [c];
    }
  }

  lemma OneBlank(c: char)
    requires Blank(c)
    ensures AllBlank([c])
  {
  }

  lemma GrowLayout(st: State, s: string, gaps: seq<string>, c: char)
    requires MidLayout(st, s, gaps) && !(Blank(c) && st.quote == Outside)
    ensures MidLayout(Step(st, c), s + [c], gaps)
  {
    LongerToken(st.current, c);
  }

  lemma WidenLastGap(gaps: seq<string>, ts: seq<string>, c: char) returns (wider: seq<string>)
    requires |gaps| == |ts| + 1 && Blank(c) && forall k :: 0 <= k < |gaps| ==> AllBlank(gaps[k])
    ensures wider == gaps[|ts| := gaps[|ts|] + [c]]
    ensures forall k :: 0 <= k < |wider| ==> AllBlank(wider[k])
    ensures Laid(wider, ts) == Laid(gaps, ts) + [c]
  {
    wider := gaps[|ts| := gaps[|ts|] + [c]];
    if ts != [] {
      assert wider[..|ts|] == gaps[..|ts|];
    }
  }

  lemma LongerToken(t: string, c: char)
    requires t == "" || IsToken(t)
    requires !(Blank(c) && After(Outside, t) == Outside)
    ensures IsToken(t + [c]) && After(Outside, t + [c]) == QuoteStep(After(Outside, t), c)
  {
    assert (t + [c])[..|t|] == t;
    UnbrokenLonger(t, c);
  }

  lemma TokensLayout(s: string) returns (gaps: seq<string>)
    ensures WellFormed(Tokens(s)) && Separates(gaps, Tokens(s)) && Laid(gaps, Tokens(s)) == s
  {
    var st := Scan(START, s);
    gaps := ScanLayout(s);
    if st.current == "" {
      assert s == Laid(gaps, st.tokens);
    } else {
      assert (st.tokens + [st.current])[..|st.tokens|] == st.tokens && (gaps + [""])[..|gaps|] == gaps;
      gaps := gaps + [""];
      assert Laid(gaps, Tokens(s)) == s;
    }
  }

  /**
   * Exactly one list of tokens lays out to the input: well-formed tokens, with
   * blanks around them that separate them.
   */
  lemma TokensExactly(s: string, ts: seq<string>)
    ensures ts == Tokens(s) <==>
      WellFormed(ts) && exists gaps :: Separates(gaps, ts) && Laid(gaps, ts) == s
  {
    if WellFormed(ts) && exists gaps :: Separates(gaps, ts) && Laid(gaps, ts) == s {
      var gaps :| Separates(gaps, ts) && Laid(gaps, ts) == s;
      ScanLaid(gaps, ts);
    }
    if ts == Tokens(s) {
      var gaps := TokensLayout(s);
    }
  }

  // ---- Nothing but separators is lost ----------------------------------------------------

  /** The input without its unquoted blanks. */
  ghost function Kept(s: string): string {
    if s == "" then ""
    else
      var n := |s| - 1;
      if Separator(s, n) then Kept(s[..n]) else Kept(s[..n]) + [s[n]]
  }

  lemma {:induction false} ScanKeeps(s: string)
    ensures var st := Scan(START, s);
      Concat(st.tokens) + st.current == Kept(s) && st.quote == After(Outside, s)
  {
    if s != "" {
      var n := |s| - 1;
      var st := Scan(START, s[..n]);
      ScanKeeps(s[..n]);
      assert (st.tokens + [st.current])[..|st.tokens|] == st.tokens;
      QuotesExactly(s[..n]);
      assert Separator(s, n) ==> After(Outside, s) == Outside;
    }
  }

  lemma NothingElseIsLost(s: string)
    ensures Concat(Tokens(s)) == Kept(s)
    ensures forall k :: 0 <= k < |Tokens(s)| ==> Tokens(s)[k] != ""
  {
    var st := Scan(START, s);
    ScanKeeps(s);
    assert (st.tokens + [st.current])[..|st.tokens|] == st.tokens;
    var gaps := TokensLayout(s);
    assert forall k :: 0 <= k < |Tokens(s)| ==> IsToken(Tokens(s)[k]);
  }

  // ---- Tokens joined by single blanks ------------------------------------------------------

  function Joined(ts: seq<string>): string {
    if ts == [] then "" else if |ts| == 1 then ts[0] else Joined(ts[..|ts| - 1]) + " " + ts[|ts| - 1]
  }

  function SingleGaps(n: nat): seq<string> {
    seq(n + 1, k requires 0 <= k => if 0 < k < n then " " else "")
  }

  /** Tokens joined by one blank tokenize to themselves, even when the last quote is open. */
  lemma JoinedRoundTrip(s: string)
    ensures Tokens(Joined(Tokens(s))) == Tokens(s)
  {
    hide Laid, IsToken, Closed, Joined, Scan;
    var ts := Tokens(s);
    var gaps := TokensLayout(s);
    JoinedIsLaid(ts);
    SingleGapsSeparate(ts);
    ScanLaid(SingleGaps(|ts|), ts);
  }

  lemma SingleGapsSeparate(ts: seq<string>)
    ensures Separates(SingleGaps(|ts|), ts)
  {
    hide Closed;
  }

  lemma {:induction false} JoinedIsLaid(ts: seq<string>)
    ensures Laid(SingleGaps(|ts|), ts) == Joined(ts)
  {
    if |ts| == 1 {
      assert Laid(SingleGaps(1)[..1], ts[..0]) == "";
    } else if |ts| > 1 {
      var n := |ts| - 1;
      JoinedIsLaid(ts[..n]);
      var front := SingleGaps(|ts|)[..n + 1];
      assert front == SingleGaps(n)[n := " "];
      assert SingleGaps(n)[..n] == front[..n];
      assert Laid(front, ts[..n]) == Laid(SingleGaps(n), ts[..n]) + " ";
    }
  }
}
