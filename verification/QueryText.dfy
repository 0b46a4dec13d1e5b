/** Splitting query text into words, joining words, and normalising a query. */
module QueryText {

  /** Unicode white space, as `split_whitespace` sees it. */
  predicate IsBlank(c: char) {
    var n := c as int;
    || 9 <= n <= 13 || n == 32 || n == 0x85 || n == 0xA0 || n == 0x1680
    || 0x2000 <= n <= 0x200A || n == 0x2028 || n == 0x2029 || n == 0x202F || n == 0x205F || n == 0x3000
  }

  predicate BlankFree(s: string) {
    forall i :: 0 <= i < |s| ==> !IsBlank(s[i])
  }

  /** Words are not empty and hold no blank. */
  predicate AreWords(ws: seq<string>) {
    forall i :: 0 <= i < |ws| ==> ws[i] != "" && BlankFree(ws[i])
  }

  /** The words of `s`, given the word being read. */
  function WordsFrom(s: string, current: string): (ws: seq<string>)
    requires BlankFree(current)
    ensures AreWords(ws)
    decreases |s|
  {
    if s == "" then if current == "" then [] else [current]
    else if !IsBlank(s[0]) then WordsFrom(s[1..], current + [s[0]])
    else if current == "" then WordsFrom(s[1..], "")
    else [current] + WordsFrom(s[1..], "")
  }

  function Words(s: string): (ws: seq<string>)
    ensures AreWords(ws)
  {
    WordsFrom(s, "")
  }

  function Join(ws: seq<string>): string {
    if ws == [] then "" else if |ws| == 1 then ws[0] else ws[0] + " " + Join(ws[1..])
  }

  lemma {:induction false} WordsOfWord(w: string, rest: string, current: string)
    requires BlankFree(w) && BlankFree(current)
    ensures BlankFree(current + w)
    ensures WordsFrom(w + rest, current) == WordsFrom(rest, current + w)
    decreases |w|
  {
    if w == "" {
      assert w + rest == rest && current + w == current;
    } else {
      assert (w + rest)[1..] == w[1..] + rest;
      assert (current + [w[0]]) + w[1..] == current + w;
      WordsOfWord(w[1..], rest, current + [w[0]]);
    }
  }

  /** Splitting undoes joining. */
  lemma {:induction false} WordsOfJoin(ws: seq<string>)
    requires AreWords(ws)
    ensures Words(Join(ws)) == ws
  {
    if |ws| == 1 {
      WordsOfWord(ws[0], "", "");
      assert ws[0] + "" == ws[0] && "" + ws[0] == ws[0];
    } else if |ws| > 1 {
      var tail := " " + Join(ws[1..]);
      assert Join(ws) == ws[0] + tail;
      WordsOfWord(ws[0], tail, "");
      assert "" + ws[0] == ws[0];
      assert tail[1..] == Join(ws[1..]);
      WordsOfJoin(ws[1..]);
    }
  }

  // ---- Keywords --------------------------------------------------------------------

  const CLAUSE_WORDS: set<string> := {
    "SELECT", "WHERE", "FROM", "SEARCH", "LIMIT", "ORDER", "BY", "GROUP",
    "AND", "OR", "NOT", "JOIN", "ON", "AS", "HAVING", "INSERT", "UPDATE",
    "DELETE", "SET", "INTO", "VALUES", "WITH", "UNION", "INTERSECT", "EXCEPT"
  }

  const EXPRESSION_WORDS: set<string> := {
    "EXISTS", "BETWEEN", "LIKE", "IN", "IS", "NULL", "TRUE", "FALSE",
    "ASC", "DESC", "DISTINCT", "ALL", "ANY", "SOME", "CASE", "WHEN", "THEN",
    "ELSE", "END"
  }

  const DOMAIN_WORDS: set<string> := {
    "PROOF", "VERIFY", "DRIFT", "HEXAD", "MODALITY", "TYPE",
    "GRAPH", "VECTOR", "TENSOR", "SEMANTIC", "DOCUMENT", "TEMPORAL"
  }

  /**
   * The upper case of a character wherever that is all ASCII: the letters, the
   * long s, the dotless i, the sharp s, and the ligatures. Any other character
   * has something else than ASCII in its upper case, so no keyword contains it,
   * and it stands for that here.
   */
  function UpperChar(c: char): string {
    var n := c as int;
    if 'a' <= c <= 'z' then [c - 32 as char]
    else if n == 0x131 then "I"
    else if n == 0x17F then "S"
    else if n == 0xDF then "SS"
    else if n == 0xFB00 then "FF"
    else if n == 0xFB01 then "FI"
    else if n == 0xFB02 then "FL"
    else if n == 0xFB03 then "FFI"
    else if n == 0xFB04 then "FFL"
    else if n == 0xFB05 || n == 0xFB06 then "ST"
    else [c]
  }

  /** The lower case of a character that a keyword can contain; the ones beyond ASCII are lower case already. */
  function LowerChar(c: char): char {
    if 'A' <= c <= 'Z' then c + 32 as char else c
  }

  function Upper(s: string): string {
    if s == "" then "" else UpperChar(s[0]) + Upper(s[1..])
  }

  function Lower(s: string): string {
    seq(|s|, i requires 0 <= i < |s| => LowerChar(s[i]))
  }

  predicate IsKeyword(w: string) {
    var u := Upper(w);
    u in CLAUSE_WORDS || u in EXPRESSION_WORDS || u in DOMAIN_WORDS
  }

  /** Keywords in lower case; anything else as written. */
  function Canonical(w: string): string {
    if IsKeyword(w) then Lower(w) else w
  }

  function CanonicalWords(ws: seq<string>): (cs: seq<string>)
    ensures |cs| == |ws| && forall i :: 0 <= i < |ws| ==> cs[i] == Canonical(ws[i])
  {
    seq(|ws|, i requires 0 <= i < |ws| => Canonical(ws[i]))
  }

  function Split(s: string): (ts: seq<string>)
    ensures ts != []
  {
    if s == "" then [""]
    else
      var rest := Split(s[1..]);
      if s[0] == ' ' then [""] + rest else [[s[0]] + rest[0]] + rest[1..]
  }

  /** Collapse white space, split at the single spaces left, lower the keywords, join again. */
  function Normalize(query: string): string {
    Join(CanonicalWords(Split(Join(Words(query)))))
  }

  lemma {:induction false} SplitOfWord(w: string, rest: string)
    requires BlankFree(w)
    ensures Split(w + rest) == [w + Split(rest)[0]] + Split(rest)[1..]
  {
    if w == "" {
      assert w + rest == rest && w + Split(rest)[0] == Split(rest)[0];
    } else {
      assert (w + rest)[1..] == w[1..] + rest;
      SplitOfWord(w[1..], rest);
      assert [w[0]] + (w[1..] + Split(rest)[0]) == w + Split(rest)[0];
    }
  }

  /** Splitting the collapsed text gives the words back; an empty query is one empty token. */
  lemma {:induction false} SplitOfJoin(ws: seq<string>)
    requires AreWords(ws)
    ensures Split(Join(ws)) == if ws == [] then [""] else ws
  {
    if |ws| == 1 {
      SplitOfWord(ws[0], "");
      assert ws[0] + "" == ws[0];
    } else if |ws| > 1 {
      var tail := " " + Join(ws[1..]);
      assert Join(ws) == ws[0] + tail;
      SplitOfWord(ws[0], tail);
      assert tail[1..] == Join(ws[1..]);
      SplitOfJoin(ws[1..]);
      assert Split(tail) == [""] + ws[1..];
      assert ws[0] + "" == ws[0];
    }
  }

  lemma {:induction false} UpperOfLower(s: string)
    ensures Upper(Lower(s)) == Upper(s)
  {
    if s != "" {
      assert Lower(s)[1..] == Lower(s[1..]);
      UpperOfLower(s[1..]);
    }
  }

  lemma LowerTwice(s: string)
    ensures Lower(Lower(s)) == Lower(s) && (BlankFree(s) ==> BlankFree(Lower(s)))
  {
  }

  lemma CanonicalIsWord(w: string)
    requires w != "" && BlankFree(w)
    ensures Canonical(w) != "" && BlankFree(Canonical(w)) && Canonical(Canonical(w)) == Canonical(w)
  {
    hide Upper;
    UpperOfLower(w);
    LowerTwice(w);
  }

  /** Two words have the same canonical form exactly when they are equal or a keyword in spellings with one lower case. */
  lemma CanonicalAgreesExactly(a: string, b: string)
    ensures Canonical(a) == Canonical(b) <==> a == b || (IsKeyword(a) && Lower(a) == Lower(b))
  {
    hide Upper;
    UpperOfLower(a);
    UpperOfLower(b);
    LowerTwice(a);
    LowerTwice(b);
  }

  /** The long s: one keyword in four spellings with two normal forms. */
  lemma LongSpellings(c: char)
    requires c as int == 0x17F
    ensures var (long, short) := ([c] + "ET", "SET");
      && IsKeyword(long) && IsKeyword(short) && IsKeyword([c] + "et")
      && Canonical(long) == Canonical([c] + "et") && Canonical(long) != Canonical(short)
  {
    assert ([c] + "ET")[1..] == "ET" && ([c] + "et")[1..] == "et";
    assert "ET"[1..] == "T" && "T"[1..] == "" && "et"[1..] == "t" && "t"[1..] == "";
    assert "SET"[1..] == "ET";
    assert Upper("T") == "T" && Upper("ET") == "ET" && Upper("SET") == "SET";
    assert Upper("t") == "T" && Upper("et") == "ET";
    assert Upper([c] + "ET") == "SET" && Upper([c] + "et") == "SET";
    assert Lower([c] + "ET")[0] == c && Lower("SET")[0] == 's';
    assert Lower([c] + "ET") == Lower([c] + "et");
  }

  lemma NormalizeIsJoin(query: string)
    ensures AreWords(CanonicalWords(Words(query)))
    ensures Normalize(query) == Join(CanonicalWords(Words(query)))
  {
    var ws := Words(query);
    forall i | 0 <= i < |ws| ensures CanonicalWords(ws)[i] != "" && BlankFree(CanonicalWords(ws)[i]) {
      CanonicalIsWord(ws[i]);
    }
    SplitOfJoin(ws);
    if ws == [] {
      assert Lower("") == "" && Canonical("") == "";
      assert CanonicalWords([""]) == [""];
      assert CanonicalWords(ws) == [];
    }
  }

  lemma NormalizeIdempotent(query: string)
    ensures Normalize(Normalize(query)) == Normalize(query)
  {
    var cs := CanonicalWords(Words(query));
    NormalizeIsJoin(query);
    NormalizeIsJoin(Normalize(query));
    WordsOfJoin(cs);
    forall i | 0 <= i < |cs| ensures Canonical(cs[i]) == cs[i] {
      CanonicalIsWord(Words(query)[i]);
    }
    assert CanonicalWords(cs) == cs;
  }

  /** Same words, keywords taken in lower case. */
  ghost predicate SameQuery(a: string, b: string) {
    && |Words(a)| == |Words(b)|
    && forall i :: 0 <= i < |Words(a)| ==>
         Words(a)[i] == Words(b)[i] || (IsKeyword(Words(a)[i]) && Lower(Words(a)[i]) == Lower(Words(b)[i]))
  }

  /** Normalisation identifies exactly the queries with the same words, keywords taken in lower case. */
  lemma NormalizeIdentifiesExactly(a: string, b: string)
    ensures Normalize(a) == Normalize(b) <==> SameQuery(a, b)
  {
    var va, vb := CanonicalWords(Words(a)), CanonicalWords(Words(b));
    NormalizeIsJoin(a);
    NormalizeIsJoin(b);
    WordsOfJoin(va);
    WordsOfJoin(vb);
    assert Normalize(a) == Normalize(b) <==> va == vb;
    if |va| == |vb| {
      forall i | 0 <= i < |va|
        ensures va[i] == vb[i] <==>
                  Words(a)[i] == Words(b)[i] || (IsKeyword(Words(a)[i]) && Lower(Words(a)[i]) == Lower(Words(b)[i]))
      {
        CanonicalAgreesExactly(Words(a)[i], Words(b)[i]);
      }
    }
  }

  /** An ASCII letter, and the same one in the other case. */
  predicate SameLetter(a: char, b: char) {
    ('A' <= a <= 'Z' && (b == a || b as int == a as int + 32)) || ('a' <= a <= 'z' && (b == a || b as int == a as int - 32))
  }

  /** Two words of ASCII letters that differ in case at most. */
  predicate SameLetters(a: string, b: string) {
    a != "" && |a| == |b| && forall i :: 0 <= i < |a| ==> SameLetter(a[i], b[i])
  }

  function Capital(c: char): char {
    if 'a' <= c <= 'z' then c - 32 as char else c
  }

  function Capitals(s: string): (r: string)
    ensures |r| == |s| && forall i :: 0 <= i < |s| ==> r[i] == Capital(s[i])
  {
    seq(|s|, i requires 0 <= i < |s| => Capital(s[i]))
  }

  predicate Letters(s: string) {
    forall i :: 0 <= i < |s| ==> SameLetter(s[i], s[i])
  }

  lemma CapitalLetter(c: char)
    requires SameLetter(c, c)
    ensures UpperChar(c) == [Capital(c)]
  {
  }

  lemma {:induction false} UpperIsCapitals(s: string)
    requires Letters(s)
    ensures Upper(s) == Capitals(s)
  {
    hide UpperChar, Capital, SameLetter;
    if s != "" {
      CapitalLetter(s[0]);
      UpperIsCapitals(s[1..]);
      assert Capitals(s) == [Capital(s[0])] + Capitals(s[1..]);
    }
  }

  lemma WordIsItself(w: string)
    requires SameLetters(w, w)
    ensures Words(w) == [w]
  {
    assert BlankFree(w) by {
      forall i | 0 <= i < |w| ensures !IsBlank(w[i]) {
        assert SameLetter(w[i], w[i]);
      }
    }
    WordsOfWord(w, "", "");
    assert w + "" == w && "" + w == w;
  }

  /** The words whose case does not matter. */
  predicate Reserved(w: string) {
    || w in {
         "SELECT", "WHERE", "FROM", "SEARCH", "LIMIT", "ORDER", "BY", "GROUP", "AND", "OR", "NOT", "JOIN", "ON", "AS",
         "HAVING", "INSERT", "UPDATE", "DELETE", "SET", "INTO", "VALUES", "WITH", "UNION", "INTERSECT", "EXCEPT"}
    || w in {
         "EXISTS", "BETWEEN", "LIKE", "IN", "IS", "NULL", "TRUE", "FALSE", "ASC", "DESC", "DISTINCT", "ALL", "ANY", "SOME",
         "CASE", "WHEN", "THEN", "ELSE", "END"}
    || w in {
         "PROOF", "VERIFY", "DRIFT", "HEXAD", "MODALITY", "TYPE",
         "GRAPH", "VECTOR", "TENSOR", "SEMANTIC", "DOCUMENT", "TEMPORAL"}
  }

  lemma KeywordsAreReserved(w: string)
    requires SameLetters(w, w)
    ensures IsKeyword(w) <==> Reserved(Capitals(w))
  {
    hide Upper, Capitals;
    UpperIsCapitals(w);
  }

  /** A word of ASCII letters and the same word in another case are one query exactly when the word is reserved. */
  lemma CaseIsIgnoredExactly(a: string, b: string)
    requires SameLetters(a, b)
    ensures Normalize(a) == Normalize(b) <==> a == b || Reserved(Capitals(a))
  {
    hide Normalize, Words, Capitals, Reserved, IsKeyword;
    assert SameLetters(a, a) && SameLetters(b, b);
    WordIsItself(a);
    WordIsItself(b);
    KeywordsAreReserved(a);
    NormalizeIdentifiesExactly(a, b);
    assert Lower(a) == Lower(b);
    assert Words(a)[0] == a && Words(b)[0] == b;
    assert SameQuery(a, b) <==> a == b || IsKeyword(a);
  }

  // ---- Parameters --------------------------------------------------------------------

  /** `alphanumeric` is the library's test; a dollar sign never passes it. */
  predicate IsNameChar(alphanumeric: char -> bool, c: char) {
    c != '$' && (alphanumeric(c) || c == '_')
  }

  /** Where the name characters from `i` on end. */
  function RunEnd(alphanumeric: char -> bool, s: string, i: nat): (end: nat)
    requires i <= |s|
    ensures i <= end <= |s| && forall k :: i <= k < end ==> IsNameChar(alphanumeric, s[k])
    ensures end < |s| ==> !IsNameChar(alphanumeric, s[end])
    decreases |s| - i
  {
    if i < |s| && IsNameChar(alphanumeric, s[i]) then RunEnd(alphanumeric, s, i + 1) else i
  }

  /** The longest stretch of name characters at `i`. */
  function NameRun(alphanumeric: char -> bool, s: string, i: nat): (r: string)
    ensures i + |r| <= |s| || r == ""
    ensures r == if i <= |s| then s[i..i + |r|] else ""
    ensures forall k :: 0 <= k < |r| ==> IsNameChar(alphanumeric, r[k])
    ensures i + |r| < |s| ==> !IsNameChar(alphanumeric, s[i + |r|])
  {
    if i <= |s| then s[i..RunEnd(alphanumeric, s, i)] else ""
  }

  /** The parameter at `i`: a dollar sign and a name that is not empty. */
  predicate ParameterAt(alphanumeric: char -> bool, s: string, i: int, p: string) {
    0 <= i < |s| && s[i] == '$' && NameRun(alphanumeric, s, i + 1) != "" && p == "$" + NameRun(alphanumeric, s, i + 1)
  }

  /** The parameters that start before `n`, each where it first occurs. */
  function ParametersUpTo(alphanumeric: char -> bool, s: string, n: nat): seq<string>
    requires n <= |s|
  {
    if n == 0 then []
    else
      var before, p := ParametersUpTo(alphanumeric, s, n - 1), "$" + NameRun(alphanumeric, s, n);
      if s[n - 1] == '$' && |p| > 1 && p !in before then before + [p] else before
  }

  function Parameters(alphanumeric: char -> bool, s: string): seq<string> {
    ParametersUpTo(alphanumeric, s, |s|)
  }

  lemma {:induction false} NoDollarNoParameter(alphanumeric: char -> bool, s: string, i: nat, j: nat)
    requires i <= j <= |s| && forall k :: i <= k < j ==> s[k] != '$'
    ensures ParametersUpTo(alphanumeric, s, j) == ParametersUpTo(alphanumeric, s, i)
    decreases j - i
  {
    hide NameRun, ParametersUpTo;
    if i < j {
      NoDollarNoParameter(alphanumeric, s, i, j - 1);
      ParametersStep(alphanumeric, s, j - 1);
    }
  }

  /** Read name characters as long as they last. */
  method ReadName(alphanumeric: char -> bool, query: string, start: nat) returns (name: string)
    requires start <= |query|
    ensures name == NameRun(alphanumeric, query, start) && start + |name| <= |query|
    ensures forall k :: start <= k < start + |name| ==> query[k] != '$'
  {
    hide NameRun;
    name := "";
    while start + |name| < |query| && IsNameChar(alphanumeric, query[start + |name|])
      invariant start + |name| <= |query| && name == query[start..start + |name|]
      invariant forall k :: start <= k < start + |name| ==> IsNameChar(alphanumeric, query[k])
      decreases |query| - |name|
    {
      name := name + [query[start + |name|]];
    }
    LongestIsRun(alphanumeric, query, start, |name|);
  }

  lemma {:induction false} LongestIsRun(alphanumeric: char -> bool, s: string, start: nat, n: nat)
    requires start + n <= |s| && forall k :: start <= k < start + n ==> IsNameChar(alphanumeric, s[k])
    requires start + n < |s| ==> !IsNameChar(alphanumeric, s[start + n])
    ensures NameRun(alphanumeric, s, start) == s[start..start + n]
    decreases n
  {
    hide IsNameChar;
    if n > 0 {
      LongestIsRun(alphanumeric, s, start + 1, n - 1);
    }
  }

  lemma NoParametersYet(alphanumeric: char -> bool, s: string)
    ensures ParametersUpTo(alphanumeric, s, 0) == []
  {
  }

  /** One position more. */
  lemma ParametersStep(alphanumeric: char -> bool, s: string, i: nat)
    requires i < |s|
    ensures var before, p := ParametersUpTo(alphanumeric, s, i), "$" + NameRun(alphanumeric, s, i + 1);
      ParametersUpTo(alphanumeric, s, i + 1) == if s[i] == '$' && |p| > 1 && p !in before then before + [p] else before
  {
    hide NameRun;
  }

  method ExtractParameters(alphanumeric: char -> bool, query: string) returns (params: seq<string>)
    ensures params == Parameters(alphanumeric, query)
  {
    hide NameRun, ParametersUpTo;
    params := [];
    var i := 0;
    assert ParametersUpTo(alphanumeric, query, 0) == [] by { NoParametersYet(alphanumeric, query); }
    while i < |query|
      invariant i <= |query| && params == ParametersUpTo(alphanumeric, query, i)
    {
      var ch := query[i];
      ParametersStep(alphanumeric, query, i);
      i := i + 1;
      if ch == '$' {
        var name := ReadName(alphanumeric, query, i);
        NoDollarNoParameter(alphanumeric, query, i, i + |name|);
        i := i + |name|;
        name := "$" + name;
        if |name| > 1 && name !in params {
          params := params + [name];
        }
      }
    }
  }

  /** `p` starts somewhere before `n`. */
  ghost predicate Occurs(alphanumeric: char -> bool, s: string, n: nat, p: string) {
    exists i :: 0 <= i < n && ParameterAt(alphanumeric, s, i, p)
  }

  lemma OccursNext(alphanumeric: char -> bool, s: string, n: nat, p: string)
    requires n > 0
    ensures Occurs(alphanumeric, s, n, p) <==> Occurs(alphanumeric, s, n - 1, p) || ParameterAt(alphanumeric, s, n - 1, p)
  {
    hide ParameterAt;
    if ParameterAt(alphanumeric, s, n - 1, p) {
      assert Occurs(alphanumeric, s, n, p);
    }
  }

  /** `p` starts somewhere before `q` first does. */
  ghost predicate StartsBefore(alphanumeric: char -> bool, s: string, p: string, q: string) {
    exists i :: ParameterAt(alphanumeric, s, i, p) && !Occurs(alphanumeric, s, i, q)
  }

  /** The names of a list are those that occur, each once, in the order in which they first do. */
  ghost predicate OccurOnce(alphanumeric: char -> bool, s: string, n: nat, ps: seq<string>) {
    && (forall j, k :: 0 <= j < k < |ps| ==> ps[j] != ps[k] && StartsBefore(alphanumeric, s, ps[j], ps[k]))
    && (forall p :: p in ps <==> Occurs(alphanumeric, s, n, p))
  }

  lemma OneMoreOccurs(alphanumeric: char -> bool, s: string, n: nat, before: seq<string>, p: string)
    requires OccurOnce(alphanumeric, s, n, before) && p !in before
    requires forall q :: Occurs(alphanumeric, s, n + 1, q) <==> Occurs(alphanumeric, s, n, q) || q == p
    ensures OccurOnce(alphanumeric, s, n + 1, before + [p])
  {
    hide ParameterAt;
    forall j | 0 <= j < |before| ensures StartsBefore(alphanumeric, s, before[j], p) {
      assert before[j] in before && !Occurs(alphanumeric, s, n, p);
      var i :| 0 <= i < n && ParameterAt(alphanumeric, s, i, before[j]);
      assert !Occurs(alphanumeric, s, i, p);
    }
  }

  lemma {:induction false} ParametersUpToExactly(alphanumeric: char -> bool, s: string, n: nat)
    requires n <= |s|
    ensures OccurOnce(alphanumeric, s, n, ParametersUpTo(alphanumeric, s, n))
  {
    hide NameRun, Occurs, StartsBefore;
    if n == 0 {
      forall p ensures !Occurs(alphanumeric, s, 0, p) {
        NothingOccurs(alphanumeric, s, p);
      }
    } else {
      var before, p0 := ParametersUpTo(alphanumeric, s, n - 1), "$" + NameRun(alphanumeric, s, n);
      ParametersUpToExactly(alphanumeric, s, n - 1);
      forall p ensures Occurs(alphanumeric, s, n, p) <==>
          Occurs(alphanumeric, s, n - 1, p) || (s[n - 1] == '$' && |p0| > 1 && p == p0)
      {
        OccursNext(alphanumeric, s, n, p);
      }
      if s[n - 1] == '$' && |p0| > 1 && p0 !in before {
        OneMoreOccurs(alphanumeric, s, n - 1, before, p0);
      }
    }
  }

  lemma NothingOccurs(alphanumeric: char -> bool, s: string, p: string)
    ensures !Occurs(alphanumeric, s, 0, p)
  {
  }

  /** The parameters found are those that occur, a dollar sign and the longest name after it, each once and in order. */
  lemma ParametersExactly(alphanumeric: char -> bool, s: string)
    ensures OccurOnce(alphanumeric, s, |s|, Parameters(alphanumeric, s))
  {
    ParametersUpToExactly(alphanumeric, s, |s|);
  }
}
