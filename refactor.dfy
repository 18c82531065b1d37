/**
 The identifier-renaming glue of refactor.js.

 The parser and the tree walker are not part of this model: one call of
 `parse` stands for parsing a source text and walking its syntax tree, and
 yields the nodes in the order the walker enters them. The single-identifier
 rename of the refactoring library is the parameter `rename`: given a text,
 the offset returned by the index search and the new name, it yields the new
 text. The source text itself is opaque (type parameter `Src`).
 */
module Refactor {
  import opened JsObject

  /** A visited syntax-tree node: its type, its name and the start of its range. */
  datatype Node = Node(kind: string, name: string, rangeStart: nat)

  const IdentifierType := "Identifier"

  /** The node is an `Identifier` spelled `name`. */
  predicate IsIdentifier(n: Node, name: string) {
    n.kind == IdentifierType && n.name == name
  }

  //--------------------------------------------------------------------------
  // listToObj
  //--------------------------------------------------------------------------

  /**
   Builds the object that maps every name of `list` to itself. Its keys are
   exactly the names of the list, each once; on a duplicate-free list they
   come in list order.
   */
  method ListToObj(list: seq<string>) returns (obj: Obj)
    ensures UniqueKeys(obj)
    ensures forall k :: k in Keys(obj) <==> k in list
    ensures forall k :: k in list ==> Get(obj, k) == Some(k)
    ensures forall k :: k !in list ==> Get(obj, k) == None
    ensures Values(obj) == Keys(obj)
    ensures NoDuplicates(list) ==> Keys(obj) == list
  {
    obj := [];
    for i := 0 to |list|
      invariant UniqueKeys(obj)
      invariant forall k :: k in Keys(obj) <==> k in list[..i]
      invariant forall j :: 0 <= j < |obj| ==> obj[j].1 == obj[j].0
      invariant NoDuplicates(list[..i]) ==> Keys(obj) == list[..i]
    {
      assert list[..i + 1] == list[..i] + [list[i]];
      obj := Put(obj, list[i], list[i]);
    }
    assert list[..|list|] == list;
    forall k | k in list
      ensures Get(obj, k) == Some(k)
    {
      var r := Get(obj, k);
      var j :| 0 <= j < |obj| && obj[j] == (k, r.value);
    }
  }

  //--------------------------------------------------------------------------
  // getIdentifiers
  //--------------------------------------------------------------------------

  /**
   The position of the first `Identifier` node spelled `name`, or `|nodes|`
   when there is none.
   */
  function FirstMatch(nodes: seq<Node>, name: string): (k: nat)
    ensures k <= |nodes|
    ensures k < |nodes| ==> IsIdentifier(nodes[k], name)
    ensures forall j :: 0 <= j < k ==> !IsIdentifier(nodes[j], name)
  {
    if nodes == [] then 0
    else if IsIdentifier(nodes[0], name) then 0
    else 1 + FirstMatch(nodes[1..], name)
  }

  /**
   `ids` lists the names of the `Identifier` nodes of `nodes`, each once,
   in the order in which their first `Identifier` node is visited.
   */
  ghost predicate FirstOccurrenceList(nodes: seq<Node>, ids: seq<string>) {
    && NoDuplicates(ids)
    && (forall u :: u in ids <==> exists k :: 0 <= k < |nodes| && IsIdentifier(nodes[k], u))
    && (forall i, j :: 0 <= i < |ids| && 0 <= j < |ids| ==>
          (i < j <==> FirstMatch(nodes, ids[i]) < FirstMatch(nodes, ids[j])))
  }

  /** The deduplicating walk of getIdentifiers. */
  method CollectIdentifiers(nodes: seq<Node>) returns (ids: seq<string>)
    ensures FirstOccurrenceList(nodes, ids)
  {
    ids := [];
    for k := 0 to |nodes|
      invariant NoDuplicates(ids)
      invariant forall u :: u in ids <==> FirstMatch(nodes, u) < k
      invariant forall i, j :: 0 <= i < j < |ids| ==> FirstMatch(nodes, ids[i]) < FirstMatch(nodes, ids[j])
    {
      var node := nodes[k];
      if node.kind == IdentifierType && node.name !in ids {
        assert FirstMatch(nodes, node.name) == k;
        ids := ids + [node.name];
      }
    }
    forall u
      ensures u in ids <==> exists k :: 0 <= k < |nodes| && IsIdentifier(nodes[k], u)
    {
      if exists k :: 0 <= k < |nodes| && IsIdentifier(nodes[k], u) {
        var k :| 0 <= k < |nodes| && IsIdentifier(nodes[k], u);
        assert FirstMatch(nodes, u) <= k;
      }
    }
    forall i, j | 0 <= i < |ids| && 0 <= j < |ids|
      ensures i < j <==> FirstMatch(nodes, ids[i]) < FirstMatch(nodes, ids[j])
    {
      if j < i {
        assert FirstMatch(nodes, ids[j]) < FirstMatch(nodes, ids[i]);
      }
    }
  }

  /**
   getIdentifiers: the object mapping each distinct identifier name of the
   walk to itself, keyed in first-occurrence order.
   */
  method GetIdentifiers(nodes: seq<Node>) returns (obj: Obj)
    ensures UniqueKeys(obj)
    ensures FirstOccurrenceList(nodes, Keys(obj))
    ensures Values(obj) == Keys(obj)
  {
    var identifiers := CollectIdentifiers(nodes);
    obj := ListToObj(identifiers);
  }

  /** A first-occurrence list of a walk is unique: the contract of CollectIdentifiers fixes its result. */
  lemma {:induction false} FirstOccurrenceListUnique(nodes: seq<Node>, a: seq<string>, b: seq<string>)
    requires FirstOccurrenceList(nodes, a) && FirstOccurrenceList(nodes, b)
    ensures a == b
  {
    FirstOccurrenceSorted(nodes, a, b);
  }

  /** Two duplicate-free lists of the same names, both strictly increasing by first match, are equal. */
  lemma {:induction false} FirstOccurrenceSorted(nodes: seq<Node>, a: seq<string>, b: seq<string>)
    requires NoDuplicates(a) && NoDuplicates(b)
    requires forall u :: u in a <==> u in b
    requires IncreasingFirstMatch(nodes, a) && IncreasingFirstMatch(nodes, b)
    ensures a == b
    decreases |a|
  {
    if a == [] {
      NoMembersIsEmpty(b);
    } else {
      SameHead(nodes, a, b);
      SameTail(a, b);
      FirstOccurrenceSorted(nodes, a[1..], b[1..]);
      assert a == [a[0]] + a[1..] && b == [b[0]] + b[1..];
    }
  }

  /** Names of `ids` come in strictly increasing order of their first match. */
  ghost predicate IncreasingFirstMatch(nodes: seq<Node>, ids: seq<string>) {
    forall i, j :: 0 <= i < j < |ids| ==> FirstMatch(nodes, ids[i]) < FirstMatch(nodes, ids[j])
  }

  lemma NoMembersIsEmpty(s: seq<string>)
    ensures (forall u :: u !in s) ==> s == []
  {
    if s != [] {
      assert s[0] in s;
    }
  }

  /** Lists with the same head and the same names have tails with the same names. */
  lemma SameTail(a: seq<string>, b: seq<string>)
    requires a != [] && b != [] && a[0] == b[0]
    requires NoDuplicates(a) && NoDuplicates(b)
    requires forall u :: u in a <==> u in b
    ensures NoDuplicates(a[1..]) && NoDuplicates(b[1..])
    ensures forall u :: u in a[1..] <==> u in b[1..]
  {
    assert a == [a[0]] + a[1..] && b == [b[0]] + b[1..];
    forall u
      ensures u in a[1..] <==> u in b[1..]
    {
      if u in a[1..] {
        var i :| 0 <= i < |a[1..]| && a[1..][i] == u;
        assert a[i + 1] == u && u != a[0];
        assert u in [b[0]] + b[1..];
      }
      if u in b[1..] {
        var i :| 0 <= i < |b[1..]| && b[1..][i] == u;
        assert b[i + 1] == u && u != b[0];
        assert u in [a[0]] + a[1..];
      }
    }
  }

  /** Both lists start with the name whose first match comes earliest. */
  lemma SameHead(nodes: seq<Node>, a: seq<string>, b: seq<string>)
    requires a != []
    requires forall u :: u in a <==> u in b
    requires IncreasingFirstMatch(nodes, a) && IncreasingFirstMatch(nodes, b)
    ensures b != [] && a[0] == b[0]
    ensures IncreasingFirstMatch(nodes, a[1..]) && IncreasingFirstMatch(nodes, b[1..])
  {
    assert a[0] in a;
    assert b[0] in b;
  }

  //--------------------------------------------------------------------------
  // getIdIndex
  //--------------------------------------------------------------------------

  /** The position of the last `Identifier` node spelled `id`, if any. */
  function LastMatch(nodes: seq<Node>, id: string): (r: Option<nat>)
    ensures r.None? <==> forall j :: 0 <= j < |nodes| ==> !IsIdentifier(nodes[j], id)
    ensures r.Some? ==> r.value < |nodes| && IsIdentifier(nodes[r.value], id)
    ensures r.Some? ==> forall j :: r.value < j < |nodes| ==> !IsIdentifier(nodes[j], id)
  {
    if nodes == [] then None
    else if IsIdentifier(nodes[|nodes| - 1], id) then Some(|nodes| - 1)
    else LastMatch(nodes[..|nodes| - 1], id)
  }

  /**
   What getIdIndex returns: -1 when no `Identifier` node is spelled `id`,
   otherwise the range start of the LAST such node in walk order.
   */
  function IdIndex(nodes: seq<Node>, id: string): (index: int)
    ensures index == -1 <==> forall j :: 0 <= j < |nodes| ==> !IsIdentifier(nodes[j], id)
    ensures index != -1 ==>
      exists k :: && 0 <= k < |nodes| && IsIdentifier(nodes[k], id)
                  && index == nodes[k].rangeStart
                  && forall j :: k < j < |nodes| ==> !IsIdentifier(nodes[j], id)
  {
    match LastMatch(nodes, id)
    case None => -1
    case Some(k) => nodes[k].rangeStart
  }

  /** getIdIndex: every matching node overwrites the index; the walk never stops early. */
  method GetIdIndex(nodes: seq<Node>, id: string) returns (index: int)
    ensures index == IdIndex(nodes, id)
    ensures index == -1 <==> forall j :: 0 <= j < |nodes| ==> !IsIdentifier(nodes[j], id)
    ensures index != -1 ==>
      exists k :: && 0 <= k < |nodes| && IsIdentifier(nodes[k], id)
                  && index == nodes[k].rangeStart
                  && forall j :: k < j < |nodes| ==> !IsIdentifier(nodes[j], id)
  {
    index := -1;
    for i := 0 to |nodes|
      invariant index == IdIndex(nodes[..i], id)
    {
      assert nodes[..i + 1][..i] == nodes[..i];
      if nodes[i].kind == IdentifierType && nodes[i].name == id {
        index := nodes[i].rangeStart;
      }
    }
    assert nodes[..|nodes|] == nodes;
  }

  /**
   The index search does not return the first match: on a walk that visits
   the identifier `a` at offsets 4 and 12 it yields 12.
   */
  lemma IdIndexIsNotFirstMatch()
    ensures var nodes := [Node(IdentifierType, "a", 4), Node(IdentifierType, "a", 12)];
      FirstMatch(nodes, "a") == 0 && nodes[0].rangeStart == 4 && IdIndex(nodes, "a") == 12
  {
  }

  /** When exactly one node matches, the last match is also the first. */
  lemma {:induction false} IdIndexSingleMatch(nodes: seq<Node>, id: string, k: nat)
    requires k < |nodes| && IsIdentifier(nodes[k], id)
    requires forall j :: 0 <= j < |nodes| && j != k ==> !IsIdentifier(nodes[j], id)
    ensures FirstMatch(nodes, id) == k
    ensures IdIndex(nodes, id) == nodes[k].rangeStart
  {
    var first := FirstMatch(nodes, id);
    assert first == k;
    var last := LastMatch(nodes, id);
    assert last.Some? && last.value == k;
  }

  //--------------------------------------------------------------------------
  // renameId and renameIds
  //--------------------------------------------------------------------------

  /** One renameId step as a value: rename the symbol found at the index search's offset. */
  function RenameStep<Src>(parse: Src -> seq<Node>, rename: (Src, int, string) -> Src,
                           src: Src, id: string, newId: string): Src
  {
    rename(src, IdIndex(parse(src), id), newId)
  }

  /** renameId: locate `id` in the current text, then hand that offset to the primitive. */
  method RenameId<Src>(parse: Src -> seq<Node>, rename: (Src, int, string) -> Src,
                       src: Src, id: string, newId: string) returns (r: Src)
    ensures r == RenameStep(parse, rename, src, id, newId)
    ensures (forall j :: 0 <= j < |parse(src)| ==> !IsIdentifier(parse(src)[j], id))
      ==> r == rename(src, -1, newId)
  {
    var index := GetIdIndex(parse(src), id);
    r := rename(src, index, newId);
  }

  /**
   The naive batch: the left fold of renameId over the properties of `ids`
   in key order, each step re-parsing the text the previous step produced.
   */
  function Fold<Src>(parse: Src -> seq<Node>, rename: (Src, int, string) -> Src,
                     src: Src, ids: Obj): Src
    decreases |ids|
  {
    if ids == [] then src
    else Fold(parse, rename, RenameStep(parse, rename, src, ids[0].0, ids[0].1), ids[1..])
  }

  /** renameIds: thread the text through one renameId per property of `ids`. */
  method RenameIds<Src>(parse: Src -> seq<Node>, rename: (Src, int, string) -> Src,
                        src: Src, ids: Obj) returns (newSrc: Src)
    ensures newSrc == Fold(parse, rename, src, ids)
    ensures ids == [] ==> newSrc == src
  {
    var idArr := Keys(ids);
    var newIdArr := Values(ids);
    newSrc := src;
    for i := 0 to |idArr|
      invariant Fold(parse, rename, newSrc, ids[i..]) == Fold(parse, rename, src, ids)
    {
      assert ids[i..][1..] == ids[i + 1..];
      newSrc := RenameId(parse, rename, newSrc, idArr[i], newIdArr[i]);
    }
  }

  /** Renaming by a concatenated batch is renaming by the first part, then by the second. */
  lemma {:induction false} FoldAppend<Src>(parse: Src -> seq<Node>, rename: (Src, int, string) -> Src,
                                           src: Src, a: Obj, b: Obj)
    ensures Fold(parse, rename, src, a + b) == Fold(parse, rename, Fold(parse, rename, src, a), b)
    decreases |a|
  {
    if a != [] {
      assert (a + b)[1..] == a[1..] + b;
      FoldAppend(parse, rename, RenameStep(parse, rename, src, a[0].0, a[0].1), a[1..], b);
    } else {
      assert a + b == b;
    }
  }

  /** The last property of the batch is applied to the output of all earlier ones. */
  lemma FoldLast<Src>(parse: Src -> seq<Node>, rename: (Src, int, string) -> Src,
                      src: Src, ids: Obj, id: string, newId: string)
    ensures Fold(parse, rename, src, ids + [(id, newId)])
         == RenameStep(parse, rename, Fold(parse, rename, src, ids), id, newId)
  {
    FoldAppend(parse, rename, src, ids, [(id, newId)]);
  }
}
