/**
 * `src/components/SentenceSelector.tsx`: which of the recognised sentences
 * the result view should show. The state is a JavaScript `Set` of sentence
 * ids; `ids` is the list of the sentences' ids in display order.
 */
module SentenceSelector {
  import opened Wrappers
  import opened JsSet

  datatype Selector = Selector(ids: seq<int>, selected: OrderedSet<int>)

  /** What the component keeps true: a duplicate-free selection of listed ids. */
  predicate Consistent(s: Selector) {
    s.selected.Valid() && forall i :: 0 <= i < |s.selected.elements| ==> s.selected.elements[i] in s.ids
  }

  /** Initial state: every sentence is selected. */
  function Init(ids: seq<int>): (s: Selector)
    ensures Consistent(s) && s.ids == ids
    ensures forall i :: 0 <= i < |ids| ==> s.selected.Has(ids[i])
  {
    Selector(ids, FromSeq(ids))
  }

  /** `allSelected`: the selection is as large as the sentence list. */
  predicate AllSelected(s: Selector) {
    s.selected.Size() == |s.ids|
  }

  /** `noneSelected`: the selection is empty. */
  predicate NoneSelected(s: Selector) {
    s.selected.Size() == 0
  }

  /** `toggle(id)`: flips `id` and no other sentence. */
  function ToggleSentence(s: Selector, id: int): (r: Selector)
    requires Consistent(s)
    requires id in s.ids
    ensures Consistent(r) && r.ids == s.ids
    ensures r.selected.Has(id) <==> !s.selected.Has(id)
    ensures forall other :: other != id ==> (other in r.selected.Contents() <==> other in s.selected.Contents())
  {
    Selector(s.ids, Toggle(s.selected, id))
  }

  /** `selectAll`: every listed sentence becomes selected. */
  function SelectAll(s: Selector): (r: Selector)
    ensures Consistent(r) && r.ids == s.ids
    ensures forall i :: 0 <= i < |s.ids| ==> r.selected.Has(s.ids[i])
  {
    Init(s.ids)
  }

  /** `deselectAll`: nothing is selected. */
  function DeselectAll(s: Selector): (r: Selector)
    ensures Consistent(r) && r.ids == s.ids
    ensures NoneSelected(r)
  {
    Selector(s.ids, Empty())
  }

  /**
   * The confirm button: disabled while nothing is selected; otherwise it
   * passes `Array.from(selected)`, the selected ids in insertion order.
   */
  function Confirm(s: Selector): (r: Option<seq<int>>)
    requires Consistent(s)
    ensures r.None? <==> NoneSelected(s)
    ensures r.Some? ==> |r.value| == s.selected.Size() && NoDup(r.value)
    ensures r.Some? ==> forall x :: x in r.value <==> s.selected.Has(x)
  {
    if NoneSelected(s) then None else Some(s.selected.elements)
  }

  /**
   * `Array.from(selected)` follows insertion order: a sentence toggled off and
   * on again is handed on last, after the others in their previous order.
   */
  lemma ConfirmAfterToggleTwice(s: Selector, k: nat)
    requires Consistent(s) && k < |s.selected.elements| && s.selected.elements[k] in s.ids
    ensures var again := ToggleSentence(ToggleSentence(s, s.selected.elements[k]), s.selected.elements[k]);
            Confirm(again)
              == Some(s.selected.elements[..k] + s.selected.elements[k + 1..] + [s.selected.elements[k]])
  {
    var x := s.selected.elements[k];
    ToggleTwiceMovesToEnd(s.selected, x, k);
  }

  /** The confirm button's caption: a prompt, or the number of selected sentences. */
  datatype Caption = ChoosePrompt | ShowCount(count: nat)

  function ConfirmCaption(s: Selector): (r: Caption)
    ensures r.ChoosePrompt? <==> NoneSelected(s)
    ensures r.ShowCount? ==> r.count == s.selected.Size() && r.count > 0
  {
    if NoneSelected(s) then ChoosePrompt else ShowCount(s.selected.Size())
  }

  /**
   * With distinct sentence ids, the size test `allSelected` agrees with its
   * meaning: every listed sentence is selected.
   */
  lemma {:induction false} AllSelectedMeansEvery(s: Selector)
    requires Consistent(s) && NoDup(s.ids)
    ensures AllSelected(s) <==> forall i :: 0 <= i < |s.ids| ==> s.selected.Has(s.ids[i])
  {
    var ids := OrderedSet(s.ids);
    SizeIsCardinality(s.selected);
    SizeIsCardinality(ids);
    assert s.selected.Contents() <= ids.Contents();
    if forall i :: 0 <= i < |s.ids| ==> s.selected.Has(s.ids[i]) {
      forall x | x in ids.Contents() ensures x in s.selected.Contents() {
        var i :| 0 <= i < |s.ids| && s.ids[i] == x;
      }
      assert ids.Contents() == s.selected.Contents();
    } else {
      var i :| 0 <= i < |s.ids| && !s.selected.Has(s.ids[i]);
      assert s.ids[i] in ids.Contents() - s.selected.Contents();
      SubsetCardinality(s.selected.Contents(), ids.Contents());
    }
  }

  /** `selectAll` and `deselectAll` are idempotent. */
  lemma SelectionButtonsIdempotent(s: Selector)
    ensures SelectAll(SelectAll(s)) == SelectAll(s)
    ensures DeselectAll(DeselectAll(s)) == DeselectAll(s)
  {
  }

  /**
   * A repeated sentence id keeps the selection smaller than the list, so
   * `allSelected` stays false and the select-all button stays enabled even
   * after selecting everything.
   */
  lemma {:induction false} RepeatedIdsNeverAllSelected(s: Selector)
    requires Consistent(s) && !NoDup(s.ids)
    ensures !AllSelected(s)
  {
    var i, j :| 0 <= i < j < |s.ids| && s.ids[i] == s.ids[j];
    SizeIsCardinality(s.selected);
    DistinctBelowLength(s.ids, i, j);
    SubsetCardinality(s.selected.Contents(), set x | x in s.ids);
  }

  /** A sequence with a repetition has fewer distinct elements than entries. */
  lemma {:induction false} DistinctBelowLength(xs: seq<int>, i: nat, j: nat)
    requires i < j < |xs| && xs[i] == xs[j]
    ensures |set x | x in xs| < |xs|
  {
    var without := xs[..j] + xs[j + 1..];
    forall x | x in xs ensures x in without {
      var k :| 0 <= k < |xs| && xs[k] == x;
      if k < j {
        assert without[k] == x;
      } else if k == j {
        assert without[i] == x;
      } else {
        assert without[k - 1] == x;
      }
    }
    forall x | x in without ensures x in xs {
      var k :| 0 <= k < |without| && without[k] == x;
      if k < j {
        assert xs[k] == x;
      } else {
        assert xs[k + 1] == x;
      }
    }
    assert (set x | x in xs) == (set x | x in without);
    CardinalityAtMostLength(without);
  }

  /** A sequence has at most as many distinct elements as entries. */
  lemma CardinalityAtMostLength(xs: seq<int>)
    ensures |set x | x in xs| <= |xs|
  {
    SizeIsCardinality(FromSeq(xs));
  }

  /** Starting from the initial state, the confirm payload lists the ids in order. */
  lemma ConfirmAllInitially(ids: seq<int>)
    requires NoDup(ids) && |ids| > 0
    ensures Confirm(Init(ids)) == Some(ids)
  {
  }
}
