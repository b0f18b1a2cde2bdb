/**
 * `src/components/PracticeView.tsx`: flash-card practice over an analysis.
 * Two reveal sets record which sentence cards and which vocabulary cards
 * show their answers; the mode selects which list is on screen. The
 * analysis enters as the id lists of its sentences and vocabulary items.
 */
module PracticeView {
  import opened JsSet

  datatype Mode = JpToEn | EnToJp | Vocabulary
  datatype Direction = EnToJpWords | JpToEnWords

  datatype Practice = Practice(mode: Mode, direction: Direction,
                               revealedSentences: OrderedSet<int>,
                               revealedVocab: OrderedSet<int>)
  {
    predicate Valid() {
      revealedSentences.Valid() && revealedVocab.Valid()
    }
  }

  /** Initial state: Japanese-to-English sentences, English-to-Japanese words, nothing revealed. */
  function Init(): (p: Practice)
    ensures p.Valid()
    ensures p.mode == JpToEn && p.direction == EnToJpWords
    ensures p.revealedSentences.Contents() == {} && p.revealedVocab.Contents() == {}
  {
    Practice(JpToEn, EnToJpWords, Empty(), Empty())
  }

  /** `toggleSentence(id)`: flips one sentence card; nothing else changes. */
  function ToggleSentence(p: Practice, id: int): (r: Practice)
    requires p.Valid()
    ensures r.Valid()
    ensures r.mode == p.mode && r.direction == p.direction && r.revealedVocab == p.revealedVocab
    ensures r.revealedSentences.Has(id) <==> !p.revealedSentences.Has(id)
    ensures forall x :: x != id ==> (x in r.revealedSentences.Contents() <==> x in p.revealedSentences.Contents())
  {
    p.(revealedSentences := Toggle(p.revealedSentences, id))
  }

  /** `toggleVocab(id)`: flips one vocabulary card; nothing else changes. */
  function ToggleVocab(p: Practice, id: int): (r: Practice)
    requires p.Valid()
    ensures r.Valid()
    ensures r.mode == p.mode && r.direction == p.direction && r.revealedSentences == p.revealedSentences
    ensures r.revealedVocab.Has(id) <==> !p.revealedVocab.Has(id)
    ensures forall x :: x != id ==> (x in r.revealedVocab.Contents() <==> x in p.revealedVocab.Contents())
  {
    p.(revealedVocab := Toggle(p.revealedVocab, id))
  }

  /** `showAll`: reveals every card of the list on screen; the other set is untouched. */
  function ShowAll(p: Practice, sentenceIds: seq<int>, vocabIds: seq<int>): (r: Practice)
    requires p.Valid()
    ensures r.Valid()
    ensures r.mode == p.mode && r.direction == p.direction
    ensures p.mode == Vocabulary ==>
              r.revealedSentences == p.revealedSentences
              && r.revealedVocab.Contents() == set x | x in vocabIds
    ensures p.mode != Vocabulary ==>
              r.revealedVocab == p.revealedVocab
              && r.revealedSentences.Contents() == set x | x in sentenceIds
  {
    if p.mode == Vocabulary then p.(revealedVocab := FromSeq(vocabIds))
    else p.(revealedSentences := FromSeq(sentenceIds))
  }

  /** `hideAll`: empties the reveal set of the list on screen only. */
  function HideAll(p: Practice): (r: Practice)
    requires p.Valid()
    ensures r.Valid()
    ensures r.mode == p.mode && r.direction == p.direction
    ensures p.mode == Vocabulary ==> r.revealedSentences == p.revealedSentences && r.revealedVocab.Contents() == {}
    ensures p.mode != Vocabulary ==> r.revealedVocab == p.revealedVocab && r.revealedSentences.Contents() == {}
  {
    if p.mode == Vocabulary then p.(revealedVocab := Empty())
    else p.(revealedSentences := Empty())
  }

  /** The mode tabs: switching mode hides every answer in both lists. */
  function ChangeMode(p: Practice, m: Mode): (r: Practice)
    ensures r.Valid()
    ensures r.mode == m && r.direction == p.direction
    ensures r.revealedSentences.Contents() == {} && r.revealedVocab.Contents() == {}
  {
    Practice(m, p.direction, Empty(), Empty())
  }

  /** The direction buttons: only the direction changes. */
  function ChangeDirection(p: Practice, d: Direction): (r: Practice)
    requires p.Valid()
    ensures r.Valid()
    ensures r.direction == d
    ensures r.mode == p.mode && r.revealedSentences == p.revealedSentences && r.revealedVocab == p.revealedVocab
  {
    p.(direction := d)
  }

  /** One card as rendered: its id and whether its answer is shown. */
  datatype Card = Card(id: int, showAnswer: bool)

  /** The body of the list area. */
  datatype Body =
    | SentenceCards(sentenceMode: Mode, cards: seq<Card>)
    | NoSentences
    | VocabularyCards(direction: Direction, cards: seq<Card>)
    | NoVocabulary

  /** The cards for `ids`, each showing its answer iff its id is revealed. */
  function Cards(ids: seq<int>, revealed: OrderedSet<int>): (cards: seq<Card>)
    ensures |cards| == |ids|
    ensures forall i :: 0 <= i < |ids| ==> cards[i].id == ids[i]
    ensures forall i :: 0 <= i < |ids| ==> (cards[i].showAnswer <==> ids[i] in revealed.elements)
  {
    seq(|ids|, i requires 0 <= i < |ids| => Card(ids[i], revealed.Has(ids[i])))
  }

  /**
   * What the list area shows: in the sentence modes the sentence cards (or a
   * notice when there are none), in vocabulary mode the word cards (or a
   * notice), each card showing its answer iff it is in the matching set.
   */
  function Render(p: Practice, sentenceIds: seq<int>, vocabIds: seq<int>): (b: Body)
    ensures b.NoSentences? <==> p.mode != Vocabulary && |sentenceIds| == 0
    ensures b.NoVocabulary? <==> p.mode == Vocabulary && |vocabIds| == 0
    ensures b.SentenceCards? <==> p.mode != Vocabulary && |sentenceIds| > 0
    ensures b.VocabularyCards? <==> p.mode == Vocabulary && |vocabIds| > 0
    ensures b.SentenceCards? ==> b.sentenceMode == p.mode && b.cards == Cards(sentenceIds, p.revealedSentences)
    ensures b.VocabularyCards? ==> b.direction == p.direction && b.cards == Cards(vocabIds, p.revealedVocab)
  {
    if p.mode != Vocabulary then
      if |sentenceIds| > 0 then SentenceCards(p.mode, Cards(sentenceIds, p.revealedSentences)) else NoSentences
    else
      if |vocabIds| > 0 then VocabularyCards(p.direction, Cards(vocabIds, p.revealedVocab)) else NoVocabulary
  }

  /** The caption under the tabs: one per mode, naming its direction or the word test. */
  function ModeLabel(m: Mode): (caption: string)
    ensures caption != []
  {
    match m
    case JpToEn => "✍️ 日→英 英作文モード"
    case EnToJp => "📖 英→日 和訳モード"
    case Vocabulary => "📝 単語テストモード"
  }

  /** The caption tells the modes apart: two modes share a caption only when they are the same. */
  lemma ModeLabelIdentifiesMode(m1: Mode, m2: Mode)
    ensures ModeLabel(m1) == ModeLabel(m2) <==> m1 == m2
  {
    if m1 != m2 {
      assert ModeLabel(m1)[0] != ModeLabel(m2)[0];
    }
  }

  /** Whether every card in the body shows its answer. */
  predicate AllShown(b: Body) {
    (b.SentenceCards? || b.VocabularyCards?) ==> forall i :: 0 <= i < |b.cards| ==> b.cards[i].showAnswer
  }

  /** Whether no card in the body shows its answer. */
  predicate NoneShown(b: Body) {
    (b.SentenceCards? || b.VocabularyCards?) ==> forall i :: 0 <= i < |b.cards| ==> !b.cards[i].showAnswer
  }

  /** After "show all", every card on screen shows its answer. */
  lemma ShowAllShowsEveryCard(p: Practice, sentenceIds: seq<int>, vocabIds: seq<int>)
    requires p.Valid()
    ensures AllShown(Render(ShowAll(p, sentenceIds, vocabIds), sentenceIds, vocabIds))
  {
  }

  /** After "hide all", no card on screen shows its answer. */
  lemma HideAllHidesEveryCard(p: Practice, sentenceIds: seq<int>, vocabIds: seq<int>)
    requires p.Valid()
    ensures NoneShown(Render(HideAll(p), sentenceIds, vocabIds))
  {
  }

  /** After a mode change, the new list starts with every answer hidden. */
  lemma ModeChangeHidesEveryCard(p: Practice, m: Mode, sentenceIds: seq<int>, vocabIds: seq<int>)
    ensures NoneShown(Render(ChangeMode(p, m), sentenceIds, vocabIds))
  {
  }

  /**
   * Revealing a card and then switching between the two sentence modes hides
   * it again: reveal state does not carry over between modes.
   */
  lemma RevealDoesNotSurviveModeSwitch(id: int)
    ensures var p := ToggleSentence(Init(), id);
            && Render(p, [id], []) == SentenceCards(JpToEn, [Card(id, true)])
            && Render(ChangeMode(p, EnToJp), [id], []) == SentenceCards(EnToJp, [Card(id, false)])
  {
  }
}
