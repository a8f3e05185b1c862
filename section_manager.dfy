/** The section manager panel: section ids derived from names, the empty-name guards, moving a
    section up or down, and the visibility toggle. Each handler yields the request it sends. */
module SectionManager {
  import opened Wrappers
  import opened Seqs
  import opened Text

  /** One entry of the `sections` prop; an absent `hidden` reads as false. */
  datatype Section = Section(id: string, name: string, hidden: bool)

  /** A request the panel sends to the server. */
  datatype SectionRequest =
    | AddSection(sectionId: string, name: string)
    | RenameSection(sectionId: string, newId: string)
    | ReorderSections(sectionId: string, newOrder: seq<string>)
    | SetVisibility(sectionId: string, hidden: bool)

  predicate IsIdChar(c: char) { 'a' <= c <= 'z' || '0' <= c <= '9' }

  /** `.replace(/[^a-z0-9]/g, '')`. */
  function KeepIdChars(s: string): (r: string)
    ensures forall i :: 0 <= i < |r| ==> IsIdChar(r[i])
  {
    if s == [] then [] else (if IsIdChar(s[0]) then [s[0]] else []) + KeepIdChars(s[1..])
  }

  lemma {:induction false} KeepIdCharsAll(s: string)
    requires forall i :: 0 <= i < |s| ==> IsIdChar(s[i])
    ensures KeepIdChars(s) == s
  {
    if s != [] {
      KeepIdCharsAll(s[1..]);
    }
  }

  /** The id derived from an already trimmed name: lower-cased, whitespace removed, and every
      character outside `a`-`z` and `0`-`9` dropped. */
  function SectionId(name: string): (r: string)
    ensures forall i :: 0 <= i < |r| ==> IsIdChar(r[i])
  {
    KeepIdChars(ReplaceWhitespaceRuns(Lower(name), ""))
  }

  /** Deriving again changes nothing, with or without trimming first. */
  lemma SectionIdIdempotent(name: string)
    ensures SectionId(Trim(SectionId(name))) == SectionId(name)
    ensures SectionId(SectionId(name)) == SectionId(name)
  {
    var r := SectionId(name);
    assert NoWhitespace(r);
    TrimNoWhitespace(r);
    LowerNoUpper(r);
    ReplaceWhitespaceRunsNone(r, "");
    KeepIdCharsAll(r);
  }

  /** `handleAddSection`: nothing is sent for a blank name; otherwise the trimmed name and the
      id derived from it. */
  function HandleAddSection(newSectionName: string): (r: Option<SectionRequest>)
    ensures r.None? <==> Trim(newSectionName) == ""
    ensures r.Some? ==> r.value == AddSection(SectionId(Trim(newSectionName)), Trim(newSectionName))
  {
    if Trim(newSectionName) == "" then None
    else
      var name := Trim(newSectionName);
      Some(AddSection(SectionId(name), name))
  }

  /** `handleRenameSection`: the same guard and the same derivation of the new id. */
  function HandleRenameSection(sectionId: string, editingName: string): (r: Option<SectionRequest>)
    ensures r.None? <==> Trim(editingName) == ""
    ensures r.Some? ==> r.value == RenameSection(sectionId, SectionId(Trim(editingName)))
  {
    if Trim(editingName) == "" then None
    else Some(RenameSection(sectionId, SectionId(Trim(editingName))))
  }

  /** Adding and renaming with the same name give the same section id. */
  lemma AddAndRenameAgree(name: string, sectionId: string)
    requires Trim(name) != ""
    ensures HandleAddSection(name).value.sectionId == HandleRenameSection(sectionId, name).value.newId
  {
  }

  /** The guard looks at the trimmed name, not at the id: a name with no letter or digit still
      sends a request, with an empty id. */
  lemma BlankIdAccepted()
    ensures HandleAddSection("!") == Some(AddSection("", "!"))
  {
    var name := "!";
    assert NoWhitespace(name) by {
      assert forall i :: 0 <= i < |name| ==> name[i] == '!';
    }
    TrimNoWhitespace(name);
    LowerNoUpper(name);
    ReplaceWhitespaceRunsNone(Lower(name), "");
    assert KeepIdChars(name) == [];
    assert SectionId(name) == [];
  }

  /** `handleToggleVisibility`: the request carries the negation of the current flag. */
  function HandleToggleVisibility(sectionId: string, currentlyHidden: bool): (r: SectionRequest)
    ensures r.sectionId == sectionId && r.SetVisibility? && r.hidden != currentlyHidden
  {
    SetVisibility(sectionId, !currentlyHidden)
  }

  function SectionIds(sections: seq<Section>): (r: seq<string>)
    ensures |r| == |sections| && forall i :: 0 <= i < |r| ==> r[i] == sections[i].id
  {
    seq(|sections|, i requires 0 <= i < |sections| => sections[i].id)
  }

  function IndexOfSection(sections: seq<Section>, sectionId: string): int
  {
    FindIndex(sections, (s: Section) => s.id == sectionId)
  }

  /** The order a move produces, or None when the id is unknown or the move would leave the list.
      Any direction other than "up" moves down. */
  function MovedOrder(sections: seq<Section>, sectionId: string, direction: string): (r: Option<seq<Section>>)
    ensures r.Some? ==> |r.value| == |sections| && multiset(r.value) == multiset(sections)
  {
    var current := IndexOfSection(sections, sectionId);
    var target := if direction == "up" then current - 1 else current + 1;
    if current == -1 || target < 0 || target >= |sections| then None
    else
      SwapFacts(sections, current, target);
      Some(Swap(sections, current, target))
  }

  /** A move exchanges exactly the section and its neighbour in the chosen direction. */
  lemma MoveSwapsNeighbours(sections: seq<Section>, sectionId: string, direction: string)
    requires MovedOrder(sections, sectionId, direction).Some?
    ensures var i := IndexOfSection(sections, sectionId);
      var j := if direction == "up" then i - 1 else i + 1;
      var r := MovedOrder(sections, sectionId, direction).value;
      && 0 <= i < |sections| && 0 <= j < |sections|
      && sections[i].id == sectionId
      && r[j] == sections[i] && r[i] == sections[j]
      && forall k :: 0 <= k < |sections| && k != i && k != j ==> r[k] == sections[k]
  {
    var i := IndexOfSection(sections, sectionId);
    var j := if direction == "up" then i - 1 else i + 1;
    SwapFacts(sections, i, j);
  }

  /** Nothing is sent for an unknown id or a move past either end. */
  lemma MoveRefused(sections: seq<Section>, sectionId: string, direction: string)
    requires (forall k :: 0 <= k < |sections| ==> sections[k].id != sectionId)
          || (|sections| > 0 && sections[0].id == sectionId && direction == "up")
          || (|sections| > 0 && sections[|sections| - 1].id == sectionId && direction != "up"
              && forall k :: 0 <= k < |sections| - 1 ==> sections[k].id != sectionId)
    ensures MovedOrder(sections, sectionId, direction) == None
  {
  }

  predicate DistinctIds(sections: seq<Section>)
  {
    forall i, j :: 0 <= i < j < |sections| ==> sections[i].id != sections[j].id
  }

  /** With distinct ids, moving a section up and then down restores the original order. */
  lemma UpThenDownRestores(sections: seq<Section>, sectionId: string)
    requires DistinctIds(sections)
    requires MovedOrder(sections, sectionId, "up").Some?
    ensures MovedOrder(MovedOrder(sections, sectionId, "up").value, sectionId, "down") == Some(sections)
  {
    var i := IndexOfSection(sections, sectionId);
    var r := MovedOrder(sections, sectionId, "up").value;
    SwapFacts(sections, i, i - 1);
    assert r[i - 1].id == sectionId;
    forall k | 0 <= k < i - 1
      ensures r[k].id != sectionId
    {
      assert r[k] == sections[k];
    }
    assert IndexOfSection(r, sectionId) == i - 1;
    SwapFacts(r, i - 1, i);
  }

  /** `handleMoveSection`: copies the list, swaps two cells of the copy in place and sends the
      resulting id order. */
  method HandleMoveSection(sections: seq<Section>, sectionId: string, direction: string) returns (r: Option<SectionRequest>)
    ensures MovedOrder(sections, sectionId, direction).None? ==> r.None?
    ensures MovedOrder(sections, sectionId, direction).Some? ==>
      r == Some(ReorderSections(sectionId, SectionIds(MovedOrder(sections, sectionId, direction).value)))
  {
    var currentIndex := IndexOfSection(sections, sectionId);
    if currentIndex == -1 {
      return None;
    }
    var newOrder := new Section[|sections|](i requires 0 <= i < |sections| => sections[i]);
    var targetIndex := if direction == "up" then currentIndex - 1 else currentIndex + 1;
    if targetIndex < 0 || targetIndex >= |sections| {
      return None;
    }
    assert newOrder[..] == sections;
    newOrder[currentIndex], newOrder[targetIndex] := newOrder[targetIndex], newOrder[currentIndex];
    assert newOrder[..] == Swap(sections, currentIndex, targetIndex);
    r := Some(ReorderSections(sectionId, SectionIds(newOrder[..])));
  }
}
