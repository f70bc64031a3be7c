/** Resolution of raw reference ids against the ids of a catalogue. */
module ReferenceIndex {
  import opened Basics
  import opened Text
  import opened Ordering

  datatype State = Exact | Canonicalized | Missing | Ambiguous

  datatype Method = ExactMatch | TrimmedExact | NamespaceExact | UniqueCaseFold | AmbiguousCaseFold | TargetAbsent

  datatype Resolution = Resolution(outputId: string, state: State, how: Method, candidates: seq<string>)

  /** All ids, and the ids of each case fold in ascending order. */
  datatype Index = Index(exact: set<string>, folded: map<string, seq<string>>)

  ghost function FoldClass(ids: set<string>, fold: string): set<string> {
    set id | id in ids && Lower(id) == fold
  }

  ghost predicate Describes(ix: Index, ids: set<string>) {
    && ix.exact == ids
    && (forall fold :: fold in ix.folded <==> FoldClass(ids, fold) != {})
    && (forall fold :: fold in ix.folded ==> ix.folded[fold] == Ascending(FoldClass(ids, fold)))
  }

  ghost function IndexOf(ids: set<string>): Index {
    Index(ids, map fold | fold in Folds(ids) :: Ascending(FoldClass(ids, fold)))
  }

  ghost function Folds(ids: set<string>): set<string> {
    set id | id in ids :: Lower(id)
  }

  lemma FoldsOccur(ids: set<string>)
    ensures forall fold :: fold in Folds(ids) <==> FoldClass(ids, fold) != {}
  {
    forall fold
      ensures fold in Folds(ids) <==> FoldClass(ids, fold) != {}
    {
      if id :| id in ids && Lower(id) == fold { assert id in FoldClass(ids, fold); }
      if id :| id in FoldClass(ids, fold) { assert Lower(id) in Folds(ids); }
    }
  }

  lemma IndexDescribes(ids: set<string>)
    ensures Describes(IndexOf(ids), ids)
  {
    FoldsOccur(ids);
  }

  lemma IndexUnique(ix: Index, ids: set<string>)
    requires Describes(ix, ids)
    ensures ix == IndexOf(ids)
  {
    IndexDescribes(ids);
    assert ix.folded.Keys == IndexOf(ids).folded.Keys;
  }

  function AddId(folded: map<string, seq<string>>, id: string): map<string, seq<string>> {
    folded[Lower(id) := (if Lower(id) in folded then folded[Lower(id)] else []) + [id]]
  }

  lemma OtherFoldsKept(seen: set<string>, id: string)
    ensures forall other :: other != Lower(id) ==> FoldClass(seen + {id}, other) == FoldClass(seen, other)
  {
  }

  lemma AddIdDescribes(folded: map<string, seq<string>>, seen: set<string>, id: string)
    requires Describes(Index(seen, folded), seen) && forall x :: x in seen ==> StringLess(x, id)
    ensures Describes(Index(seen + {id}, AddId(folded, id)), seen + {id})
  {
    var fold, after := Lower(id), AddId(folded, id);
    AddedToFold(seen, id, if fold in folded then folded[fold] else []);
    OtherFoldsKept(seen, id);
    assert forall other :: other != fold ==> (other in after <==> other in folded);
  }

  /** Builds the index; ids are visited in ascending order. */
  method NewIndex(ids: set<string>) returns (ix: Index)
    ensures ix == IndexOf(ids)
  {
    var folded: map<string, seq<string>> := map[];
    var seen: set<string> := {};
    while seen != ids
      invariant seen <= ids
      invariant forall x, y :: x in seen && y in ids - seen ==> StringLess(x, y)
      invariant Describes(Index(seen, folded), seen)
      decreases |ids - seen|
    {
      var id := NextId(ids - seen);
      AddIdDescribes(folded, seen, id);
      folded := AddId(folded, id);
      assert ids - (seen + {id}) == (ids - seen) - {id};
      seen := seen + {id};
    }
    ix := Index(ids, folded);
    IndexUnique(ix, ids);
  }

  method NextId(rest: set<string>) returns (id: string)
    requires rest != {}
    ensures id in rest && forall y :: y in rest && y != id ==> StringLess(id, y)
  {
    LeastExists(rest);
    id :| id in rest && forall y :: y in rest ==> !StringLess(y, id);
    StringOrderIsTotal();
  }

  lemma AddedToFold(seen: set<string>, id: string, list: seq<string>)
    requires forall x :: x in seen ==> StringLess(x, id)
    requires list == Ascending(FoldClass(seen, Lower(id)))
    ensures list + [id] == Ascending(FoldClass(seen + {id}, Lower(id)))
    ensures FoldClass(seen + {id}, Lower(id)) != {}
  {
    var class_, next := FoldClass(seen + {id}, Lower(id)), list + [id];
    assert id in class_;
    assert forall x :: x in list ==> x in FoldClass(seen, Lower(id)) && x in seen;
    forall i, j | 0 <= i < j < |next|
      ensures StringLess(next[i], next[j])
    {
      if j == |list| { assert list[i] in list; }
    }
    assert forall x :: x in next <==> x in class_;
    AscendingUnique(next, Ascending(class_));
  }

  function StripPrefix(s: string, prefix: Option<string>): string {
    if prefix.Some? && prefix.value <= s then s[|prefix.value|..] else s
  }

  function Resolve(ix: Index, raw: string, namespace: Option<string>): Resolution {
    var trimmed := Trim(raw);
    var bare := StripPrefix(trimmed, namespace);
    if raw in ix.exact then Resolution(raw, Exact, ExactMatch, [])
    else if trimmed != raw && trimmed in ix.exact then Resolution(trimmed, Canonicalized, TrimmedExact, [])
    else if bare != trimmed && bare in ix.exact then Resolution(bare, Canonicalized, NamespaceExact, [])
    else if Lower(bare) in ix.folded then
      var candidates := ix.folded[Lower(bare)];
      if |candidates| == 1 then Resolution(candidates[0], Canonicalized, UniqueCaseFold, [])
      else Resolution(raw, Ambiguous, AmbiguousCaseFold, candidates)
    else Resolution(raw, Missing, TargetAbsent, [])
  }

  predicate Unsettled(r: Resolution) {
    r.state == Missing || r.state == Ambiguous
  }

  lemma {:induction false} AscendingSize(s: set<string>)
    ensures |Ascending(s)| == |s|
  {
    if s != {} {
      AscendingSize(s - {Least(s)});
    }
  }

  /** A reference is settled exactly when what it resolves to is an id of the catalogue, and an
      unsettled reference is passed on as it came. */
  lemma SettledMeansPresent(ix: Index, ids: set<string>, raw: string, namespace: Option<string>)
    requires Describes(ix, ids)
    ensures !Unsettled(Resolve(ix, raw, namespace)) <==> Resolve(ix, raw, namespace).outputId in ids
    ensures Unsettled(Resolve(ix, raw, namespace)) ==> Resolve(ix, raw, namespace).outputId == raw
  {
    var fold := Lower(StripPrefix(Trim(raw), namespace));
    if fold in ix.folded {
      assert forall x :: x in ix.folded[fold] <==> x in FoldClass(ids, fold);
      if |ix.folded[fold]| == 1 { assert ix.folded[fold][0] in ix.folded[fold]; }
    }
  }

  /** What resolution decides, in terms of the ids alone: an exact, trimmed or namespace-free
      match wins; otherwise the number of ids with the same case fold decides. */
  lemma ResolutionMeans(ix: Index, ids: set<string>, raw: string, namespace: Option<string>)
    requires Describes(ix, ids)
    ensures var bare := StripPrefix(Trim(raw), namespace);
            var alike := FoldClass(ids, Lower(bare));
            var direct := raw in ids || Trim(raw) in ids || bare in ids;
            var r := Resolve(ix, raw, namespace);
            && (r.state == Exact <==> raw in ids)
            && (r.state == Canonicalized <==> raw !in ids && (direct || |alike| == 1))
            && (r.state == Missing <==> !direct && alike == {})
            && (r.state == Ambiguous <==> !direct && |alike| >= 2)
            && (!direct && |alike| == 1 ==> alike == {r.outputId})
  {
    var bare := StripPrefix(Trim(raw), namespace);
    var alike := FoldClass(ids, Lower(bare));
    AscendingSize(alike);
    if Lower(bare) in ix.folded && |alike| == 1 {
      assert ix.folded[Lower(bare)][0] in alike;
      assert |alike - {ix.folded[Lower(bare)][0]}| == 0;
    }
  }

  /** The bare reference: without surrounding whitespace and without the namespace. */
  lemma BareMeans(raw: string, prefix: string)
    ensures prefix <= raw ==> raw == prefix + StripPrefix(raw, Some(prefix))
    ensures !(prefix <= raw) ==> StripPrefix(raw, Some(prefix)) == raw
    ensures StripPrefix(raw, None) == raw
  {
  }

  /** The whole resolution, in terms of the ids alone. */
  lemma ResolutionsAre(ix: Index, ids: set<string>, raw: string, namespace: Option<string>, r: Resolution)
    requires Describes(ix, ids) && r == Resolve(ix, raw, namespace)
    ensures var trimmed, bare := Trim(raw), StripPrefix(Trim(raw), namespace);
            var alike := FoldClass(ids, Lower(bare));
            if raw in ids then r == Resolution(raw, Exact, ExactMatch, [])
            else if trimmed in ids then r == Resolution(trimmed, Canonicalized, TrimmedExact, [])
            else if bare in ids then r == Resolution(bare, Canonicalized, NamespaceExact, [])
            else if alike == {} then r == Resolution(raw, Missing, TargetAbsent, [])
            else if |alike| == 1 then
              alike == {r.outputId} && r == Resolution(r.outputId, Canonicalized, UniqueCaseFold, [])
            else r == Resolution(raw, Ambiguous, AmbiguousCaseFold, r.candidates) && StrictlyAscending(r.candidates)
                 && forall id :: id in r.candidates <==> id in alike
  {
    var bare := StripPrefix(Trim(raw), namespace);
    var alike := FoldClass(ids, Lower(bare));
    ResolutionMeans(ix, ids, raw, namespace);
    AscendingSize(alike);
  }
}
