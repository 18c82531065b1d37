/**
 The scenario in the header notes of refactor.js: a batch that permutes
 names collapses them into one. To exhibit it, the source text is a list of
 identifier tokens, the walk visits each token as an `Identifier` node whose
 range starts at its position, and the rename primitive rewrites every token
 spelled like the token at the given offset (a rename that knows nothing of
 scopes, which is the situation when all names live in one scope).
 */
module RefactorNotes {
  import opened JsObject
  import opened Refactor

  type Tokens = seq<string>

  /** The walk of a token list: one `Identifier` node per token, in order. */
  function TokenNodes(t: Tokens): (nodes: seq<Node>)
    ensures |nodes| == |t|
    ensures forall i :: 0 <= i < |t| ==> IsIdentifier(nodes[i], t[i]) && nodes[i].rangeStart == i
  {
    seq(|t|, i requires 0 <= i < |t| => Node(IdentifierType, t[i], i))
  }

  /** Rewrite every token spelled like the token at `index`; an offset that hits no token changes nothing. */
  function RenameSpelling(t: Tokens, index: int, newId: string): (r: Tokens)
    ensures |r| == |t|
    ensures 0 <= index < |t| ==>
      forall i :: 0 <= i < |t| ==> r[i] == if t[i] == t[index] then newId else t[i]
    ensures !(0 <= index < |t|) ==> r == t
  {
    if 0 <= index < |t| then
      seq(|t|, i requires 0 <= i < |t| => if t[i] == t[index] then newId else t[i])
    else t
  }

  /** Under this primitive one renameId step rewrites every token spelled `id`, and only those. */
  lemma {:induction false} SpellingStep(t: Tokens, id: string, newId: string)
    ensures forall i :: 0 <= i < |t| ==>
      RenameStep(TokenNodes, RenameSpelling, t, id, newId)[i] == if t[i] == id then newId else t[i]
    ensures |RenameStep(TokenNodes, RenameSpelling, t, id, newId)| == |t|
  {
    var nodes := TokenNodes(t);
    var index := IdIndex(nodes, id);
    if index == -1 {
      forall i | 0 <= i < |t|
        ensures t[i] != id
      {
        assert !IsIdentifier(nodes[i], id);
      }
    } else {
      var k :| 0 <= k < |nodes| && IsIdentifier(nodes[k], id) && index == nodes[k].rangeStart;
      assert index == k && t[k] == id;
    }
  }

  /** One step of the scenario, checked against the token list it should produce. */
  lemma SpellingStepIs(t: Tokens, id: string, newId: string, expected: Tokens)
    requires |expected| == |t|
    requires forall i :: 0 <= i < |t| ==> expected[i] == if t[i] == id then newId else t[i]
    ensures RenameStep(TokenNodes, RenameSpelling, t, id, newId) == expected
  {
    SpellingStep(t, id, newId);
  }

  /** The swap traced in the notes: `{a: b, b: c, c: a}` over `(a, b, c)` yields `(a, a, a)`. */
  lemma SwapCollapses()
    ensures Fold(TokenNodes, RenameSpelling, ["a", "b", "c"], [("a", "b"), ("b", "c"), ("c", "a")])
         == ["a", "a", "a"]
  {
    var a, b, c := "a", "b", "c";
    var t0, t1, t2, t3 := [a, b, c], [b, b, c], [c, c, c], [a, a, a];
    SpellingStepIs(t0, a, b, t1);
    SpellingStepIs(t1, b, c, t2);
    SpellingStepIs(t2, c, a, t3);
    FoldThree(TokenNodes, RenameSpelling, t0, (a, b), (b, c), (c, a));
  }

  /** A chain `{x: y, y: z}` over `(x, y)` also collapses: both tokens end as `z`. */
  lemma ChainCollapses()
    ensures Fold(TokenNodes, RenameSpelling, ["x", "y"], [("x", "y"), ("y", "z")]) == ["z", "z"]
  {
    var x, y, z := "x", "y", "z";
    var t0, t1, t2 := [x, y], [y, y], [z, z];
    SpellingStepIs(t0, x, y, t1);
    SpellingStepIs(t1, y, z, t2);
    FoldLast(TokenNodes, RenameSpelling, t0, [(x, y)], y, z);
    FoldLast(TokenNodes, RenameSpelling, t0, [], x, y);
    assert [(x, y)] + [(y, z)] == [(x, y), (y, z)];
  }

  /** A batch of three properties, unrolled. */
  lemma FoldThree<Src>(parse: Src -> seq<Node>, rename: (Src, int, string) -> Src,
                       src: Src, e0: (string, string), e1: (string, string), e2: (string, string))
    ensures Fold(parse, rename, src, [e0, e1, e2])
         == RenameStep(parse, rename,
              RenameStep(parse, rename,
                RenameStep(parse, rename, src, e0.0, e0.1), e1.0, e1.1), e2.0, e2.1)
  {
    var s1 := RenameStep(parse, rename, src, e0.0, e0.1);
    var s2 := RenameStep(parse, rename, s1, e1.0, e1.1);
    var s3 := RenameStep(parse, rename, s2, e2.0, e2.1);
    assert [e0, e1, e2][1..] == [e1, e2] && [e1, e2][1..] == [e2] && [e2][1..] == [];
    assert Fold(parse, rename, s2, [e2]) == Fold(parse, rename, s3, []) == s3;
    assert Fold(parse, rename, s1, [e1, e2]) == Fold(parse, rename, s2, [e2]);
    assert Fold(parse, rename, src, [e0, e1, e2]) == Fold(parse, rename, s1, [e1, e2]);
  }
}
