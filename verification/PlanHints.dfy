/** The hint a plan node is given, and the notes a plan carries. */
module PlanHints {
  import opened Wrappers
  import opened PlanCosts

  /** What the hint says; its wording is not kept. */
  datatype Hint =
    | Usual(modality: Modality)
    | NearestNeighbours(k: nat)
    | WordSearch(preview: string, cut: bool)
    | Walk(relation: string, depth: nat)
    | ProofCheck(contract: string)
    | FieldLookup(field: string)
    | SnapshotAt(timestamp: string)

  // ---- Cutting text by bytes ---------------------------------------------------------------

  /** The bytes of a character in UTF-8. */
  function Width(c: char): (n: nat)
    ensures 1 <= n <= 4
  {
    if c as int < 0x80 then 1 else if c as int < 0x800 then 2 else if c as int < 0x1_0000 then 3 else 4
  }

  function ByteLength(s: string): nat {
    if s == "" then 0 else Width(s[0]) + ByteLength(s[1..])
  }

  /** The first `n` bytes, if a character ends there. */
  function BytePrefix(s: string, n: nat): Option<string> {
    if n == 0 then Some("")
    else if s == "" || Width(s[0]) > n then None
    else match BytePrefix(s[1..], n - Width(s[0]))
      case None => None
      case Some(p) => Some([s[0]] + p)
  }

  lemma {:induction false} BytePrefixIs(s: string, n: nat)
    ensures var p := BytePrefix(s, n); p.Some? ==> p.value <= s && ByteLength(p.value) == n
  {
    if n > 0 && s != "" && Width(s[0]) <= n {
      BytePrefixIs(s[1..], n - Width(s[0]));
      var p := BytePrefix(s[1..], n - Width(s[0]));
      if p.Some? {
        assert ([s[0]] + p.value)[1..] == p.value;
      }
    }
  }

  lemma {:induction false} PrefixIsFound(s: string, i: nat)
    requires i <= |s|
    ensures BytePrefix(s, ByteLength(s[..i])) == Some(s[..i])
  {
    if i > 0 {
      assert s[..i][1..] == s[1..][..i - 1] && s[..i] == [s[0]] + s[1..][..i - 1];
      PrefixIsFound(s[1..], i - 1);
    }
  }

  /** A cut after `n` bytes is possible exactly where a character ends. */
  lemma CutExactly(s: string, n: nat)
    ensures BytePrefix(s, n).Some? <==> exists i :: 0 <= i <= |s| && ByteLength(s[..i]) == n
  {
    BytePrefixIs(s, n);
    if BytePrefix(s, n).Some? {
      var p := BytePrefix(s, n).value;
      assert s[..|p|] == p;
    }
    if i :| 0 <= i <= |s| && ByteLength(s[..i]) == n {
      PrefixIsFound(s, i);
    }
  }

  // ---- The hint ------------------------------------------------------------------------------

  const PREVIEW: nat := 20

  /** A long query is cut after twenty bytes, which the program cannot do inside a character. */
  function Preview(query: string): Option<Hint> {
    if ByteLength(query) <= PREVIEW then Some(WordSearch(query, false))
    else match BytePrefix(query, PREVIEW)
      case None => None
      case Some(p) => Some(WordSearch(p, true))
  }

  predicate Previewable(c: Condition) {
    c.Fulltext? ==> Preview(c.query).Some?
  }

  /** What a condition makes of the hint, if anything. */
  function Hinted(c: Condition): Option<Hint> {
    match c
    case Similarity(k) => Some(NearestNeighbours(k))
    case Fulltext(query) => Preview(query)
    case Traversal(relation, depth) => Some(Walk(relation, if depth.Some? then depth.value else 1))
    case ProofVerification(contract) => Some(ProofCheck(contract))
    case Equality(field, _) => Some(FieldLookup(field))
    case AtTime(timestamp) => Some(SnapshotAt(timestamp))
    case _ => None
  }

  function HintOver(hint: Hint, conditions: seq<Condition>): Hint {
    if conditions == [] then hint
    else
      var n := |conditions| - 1;
      if Hinted(conditions[n]).Some? then Hinted(conditions[n]).value else HintOver(hint, conditions[..n])
  }

  function NodeHint(node: Node): Hint {
    HintOver(Usual(node.modality), node.conditions)
  }

  predicate Hintable(node: Node) {
    forall c :: c in node.conditions ==> Previewable(c)
  }

  /** The hint of a node; none when the program stops at a query it cannot cut. */
  method OptimizationHint(node: Node) returns (r: Option<Hint>)
    ensures r == if Hintable(node) then Some(NodeHint(node)) else None
  {
    hide Preview;
    var hint := Usual(node.modality);
    for i := 0 to |node.conditions|
      invariant hint == HintOver(Usual(node.modality), node.conditions[..i])
      invariant forall j :: 0 <= j < i ==> Previewable(node.conditions[j])
    {
      assert node.conditions[..i + 1][..i] == node.conditions[..i];
      var c := node.conditions[i];
      if c.Fulltext? && Preview(c.query).None? {
        assert c in node.conditions && !Previewable(c);
        return None;
      }
      if Hinted(c).Some? {
        hint := Hinted(c).value;
      }
    }
    assert node.conditions[..|node.conditions|] == node.conditions;
    return Some(hint);
  }

  /** The last condition with something to say decides, and without one the modality does. */
  lemma {:induction false} LastConditionHints(hint: Hint, conditions: seq<Condition>)
    ensures var h := HintOver(hint, conditions);
      || (h == hint && forall j :: 0 <= j < |conditions| ==> Hinted(conditions[j]).None?)
      || (exists i :: 0 <= i < |conditions| && Hinted(conditions[i]) == Some(h) &&
                      forall j :: i < j < |conditions| ==> Hinted(conditions[j]).None?)
  {
    hide Hinted;
    if conditions != [] {
      var n := |conditions| - 1;
      LastConditionHints(hint, conditions[..n]);
    }
  }

  /**
   * A hint cannot be made if and only if some full-text query is longer than
   * twenty bytes and no character of it ends at the twentieth.
   */
  lemma UnhintableExactly(node: Node)
    ensures !Hintable(node) <==>
      exists c :: c in node.conditions && c.Fulltext? && ByteLength(c.query) > 20 &&
                  forall i :: 0 <= i <= |c.query| ==> ByteLength(c.query[..i]) != 20
  {
    forall c | c in node.conditions && c.Fulltext?
      ensures Previewable(c) <==> ByteLength(c.query) <= PREVIEW || exists i :: 0 <= i <= |c.query| && ByteLength(c.query[..i]) == PREVIEW
    {
      CutExactly(c.query, PREVIEW);
    }
  }

  /** What a text search hints at: the whole query up to twenty bytes, or the twenty bytes it starts with. */
  lemma PreviewExactly(query: string, p: string, cut: bool)
    ensures Preview(query) == Some(WordSearch(p, cut)) <==>
      if cut then ByteLength(query) > 20 && p <= query && ByteLength(p) == 20 else ByteLength(query) <= 20 && p == query
  {
    BytePrefixIs(query, PREVIEW);
    if p <= query && ByteLength(p) == PREVIEW {
      assert query[..|p|] == p;
      PrefixIsFound(query, |p|);
    }
  }

  /** The condition a hint comes from; a walk without a depth is one of a single hop, and nothing hints at the usual. */
  predicate ComesFrom(hint: Hint, c: Condition) {
    match hint
    case Usual(_) => false
    case NearestNeighbours(k) => c == Similarity(k)
    case WordSearch(p, cut) =>
      && c.Fulltext?
      && if cut then ByteLength(c.query) > 20 && p <= c.query && ByteLength(p) == 20 else ByteLength(c.query) <= 20 && p == c.query
    case Walk(relation, depth) => c == Traversal(relation, Some(depth)) || (depth == 1 && c == Traversal(relation, None))
    case ProofCheck(contract) => c == ProofVerification(contract)
    case FieldLookup(field) => c.Equality? && c.field == field
    case SnapshotAt(timestamp) => c == AtTime(timestamp)
  }

  lemma HintedExactly(c: Condition, hint: Hint)
    ensures Hinted(c) == Some(hint) <==> ComesFrom(hint, c)
  {
    hide Preview, ByteLength;
    if c.Fulltext? && hint.WordSearch? {
      PreviewExactly(c.query, hint.preview, hint.cut);
    }
    PreviewIsSearch(c);
  }

  lemma PreviewIsSearch(c: Condition)
    ensures c.Fulltext? && Preview(c.query).Some? ==> Preview(c.query).value.WordSearch?
  {
  }

  /** A node's hint comes from the last of its conditions that gives one, and without such a condition from its modality. */
  lemma NodeHintExactly(node: Node, hint: Hint)
    requires Hintable(node)
    ensures NodeHint(node) == hint <==>
      || (hint == Usual(node.modality) && forall j, h :: 0 <= j < |node.conditions| ==> !ComesFrom(h, node.conditions[j]))
      || (exists i :: 0 <= i < |node.conditions| && ComesFrom(hint, node.conditions[i])
                      && forall j, h :: i < j < |node.conditions| ==> !ComesFrom(h, node.conditions[j]))
  {
    hide Hinted, ComesFrom;
    forall c, h ensures Hinted(c) == Some(h) <==> ComesFrom(h, c) {
      HintedExactly(c, h);
    }
    var cs := node.conditions;
    LastConditionHints(Usual(node.modality), cs);
    UsualIsNoHint(cs);
    var found := NodeHint(node);
    if exists i :: 0 <= i < |cs| && ComesFrom(hint, cs[i]) && forall j, h :: i < j < |cs| ==> !ComesFrom(h, cs[j]) {
      var i :| 0 <= i < |cs| && ComesFrom(hint, cs[i]) && forall j, h :: i < j < |cs| ==> !ComesFrom(h, cs[j]);
      assert Hinted(cs[i]) == Some(hint);
      var k :| 0 <= k < |cs| && Hinted(cs[k]) == Some(found) && forall j :: k < j < |cs| ==> Hinted(cs[j]).None?;
      assert ComesFrom(found, cs[k]);
      assert i == k;
    }
    if k :| 0 <= k < |cs| && Hinted(cs[k]) == Some(found) && forall j :: k < j < |cs| ==> Hinted(cs[j]).None? {
      assert ComesFrom(found, cs[k]);
    }
  }

  lemma UsualIsNoHint(cs: seq<Condition>)
    ensures forall j :: 0 <= j < |cs| ==> Hinted(cs[j]).None? || !Hinted(cs[j]).value.Usual?
  {
    forall j | 0 <= j < |cs| ensures Hinted(cs[j]).None? || !Hinted(cs[j]).value.Usual? {
      PreviewIsSearch(cs[j]);
    }
  }

  /** Ten characters of two bytes can be cut, and one of one byte before ten of them cannot. */
  lemma SomeQueriesCannotBeCut(c: char, rest: string)
    requires Width(c) == 2 && |rest| == 10 && forall i :: 0 <= i < 10 ==> rest[i] == c
    ensures Preview("a" + rest) == None
  {
    TwoByteLength(rest, c);
    assert ("a" + rest)[1..] == rest;
    assert ByteLength("a" + rest) == 21;
    forall i | 0 <= i <= 11 ensures ByteLength(("a" + rest)[..i]) != PREVIEW {
      if i > 0 {
        assert ("a" + rest)[..i][1..] == rest[..i - 1];
        TwoByteLength(rest[..i - 1], c);
      }
    }
    CutExactly("a" + rest, PREVIEW);
  }

  lemma {:induction false} TwoByteLength(s: string, c: char)
    requires Width(c) == 2 && forall i :: 0 <= i < |s| ==> s[i] == c
    ensures ByteLength(s) == 2 * |s|
  {
    if s != "" {
      TwoByteLength(s[1..], c);
    }
  }
}
