/**
 * `src/lib/storage.ts`: the saved-analysis history, most recent first and
 * capped at `MaxItems`. `localStorage` is abstracted to the string stored under
 * the key `snapenglish_history` and a decoder for it; every operation is a
 * function from the old list to the new.
 */
module Storage {
  import opened Wrappers
  import opened Types

  const MaxItems: nat := 20

  /**
   * `getHistory`: without a window, without a stored value (or an empty one),
   * or when the stored value does not decode, the history is empty; otherwise
   * it is the decoded list.
   */
  function GetHistory<D>(hasWindow: bool, stored: Option<string>,
                         decode: string -> Option<seq<HistoryItem<D>>>): (r: seq<HistoryItem<D>>)
    ensures !hasWindow || stored.None? || stored == Some("") ==> r == []
    ensures hasWindow && stored.Some? && stored.value != "" && decode(stored.value).None? ==> r == []
    ensures r != [] ==> hasWindow && stored.Some? && decode(stored.value) == Some(r)
    ensures hasWindow && stored.Some? && stored.value != "" && decode(stored.value).Some? ==>
      r == decode(stored.value).value
  {
    if !hasWindow then []
    else match stored
      case None => []
      case Some(raw) =>
        if raw == "" then []
        else decode(raw).GetOr([])
  }

  /** `while (history.length > MAX_ITEMS) history.pop()`: keeps the oldest-dropped prefix. */
  function DropOldest<T>(s: seq<T>): (r: seq<T>)
    ensures |r| == Min(|s|, MaxItems)
    ensures r == s[..|r|]
    decreases |s|
  {
    if |s| > MaxItems then DropOldest(s[..|s| - 1]) else s
  }

  /**
   * `addHistory`: the new item comes first, the rest is the old list in its
   * order, and only its oldest entries are dropped to respect the cap.
   */
  function AddHistory<D>(history: seq<HistoryItem<D>>, item: HistoryItem<D>): (r: seq<HistoryItem<D>>)
    ensures |r| == Min(|history| + 1, MaxItems)
    ensures r[0] == item
    ensures r[1..] == history[..|r| - 1]
  {
    DropOldest([item] + history)
  }

  /** `a` is `b` with some elements deleted, the rest in the same order. */
  ghost predicate IsSubsequence<T>(a: seq<T>, b: seq<T>)
    decreases |b|
  {
    |a| == 0 || (|b| > 0 && if a[0] == b[0] then IsSubsequence(a[1..], b[1..]) else IsSubsequence(a, b[1..]))
  }

  /** No entry of `history` carries `id`. */
  predicate Absent<D>(history: seq<HistoryItem<D>>, id: string) {
    forall i :: 0 <= i < |history| ==> history[i].id != id
  }

  /**
   * `removeHistory`: every entry with `id` disappears and every other entry
   * stays, as often as before and in its relative order.
   */
  function RemoveHistory<D>(history: seq<HistoryItem<D>>, id: string): (r: seq<HistoryItem<D>>)
    ensures Absent(r, id)
    ensures IsSubsequence(r, history)
    ensures Absent(history, id) ==> r == history
  {
    if |history| == 0 then []
    else
      var head, rest := history[0], RemoveHistory(history[1..], id);
      assert history == [head] + history[1..];
      if head.id == id then
        rest
      else
        assert ([head] + rest)[1..] == rest;
        [head] + rest
  }

  /** An entry without `id` is kept by a removal exactly as often as it occurred. */
  lemma {:induction false} RemoveKeepsOthers<D>(history: seq<HistoryItem<D>>, id: string, x: HistoryItem<D>)
    requires x.id != id
    ensures multiset(RemoveHistory(history, id))[x] == multiset(history)[x]
  {
    if |history| > 0 {
      var head, rest := history[0], RemoveHistory(history[1..], id);
      RemoveKeepsOthers(history[1..], id, x);
      assert history == [head] + history[1..];
      assert multiset(history) == multiset{head} + multiset(history[1..]);
      if head.id != id {
        assert multiset([head] + rest) == multiset{head} + multiset(rest);
      }
    }
  }

  /** `getHistoryById`: the first entry carrying `id`, if any. */
  function GetHistoryById<D>(history: seq<HistoryItem<D>>, id: string): (r: Option<HistoryItem<D>>)
    ensures r.None? <==> Absent(history, id)
    ensures r.Some? ==> exists i :: 0 <= i < |history| && history[i] == r.value && r.value.id == id
                                    && Absent(history[..i], id)
  {
    if |history| == 0 then None
    else if history[0].id == id then
      assert Absent(history[..0], id);
      Some(history[0])
    else
      var r := GetHistoryById(history[1..], id);
      if r.Some? then
        assert exists i :: 0 <= i < |history| && history[i] == r.value && r.value.id == id
                           && Absent(history[..i], id) by {
          var i :| 0 <= i < |history[1..]| && history[1..][i] == r.value && r.value.id == id
                   && Absent(history[1..][..i], id);
          assert history[1..][..i] == history[1..i + 1];
          assert history[i + 1] == r.value;
        }
        r
      else
        r
  }

  /** Removing twice is removing once. */
  lemma RemoveIdempotent<D>(history: seq<HistoryItem<D>>, id: string)
    ensures RemoveHistory(RemoveHistory(history, id), id) == RemoveHistory(history, id)
  {
  }

  /** After a removal, looking the id up finds nothing. */
  lemma RemovedIsNotFound<D>(history: seq<HistoryItem<D>>, id: string)
    ensures GetHistoryById(RemoveHistory(history, id), id).None?
  {
  }

  /** After an addition, looking the new id up finds the new item. */
  lemma AddedIsFound<D>(history: seq<HistoryItem<D>>, item: HistoryItem<D>)
    ensures GetHistoryById(AddHistory(history, item), item.id) == Some(item)
  {
    var r := AddHistory(history, item);
    assert r[0] == item;
  }

  /**
   * The string `addHistory` writes back in a browser: the list it reads, with
   * `item` added, encoded by `encode` (`JSON.stringify`).
   */
  function StoreAdd<D>(stored: Option<string>, item: HistoryItem<D>,
                       encode: seq<HistoryItem<D>> -> string,
                       decode: string -> Option<seq<HistoryItem<D>>>): (w: string)
  {
    encode(AddHistory(GetHistory(true, stored, decode), item))
  }

  /** The string `removeHistory` writes back in a browser. */
  function StoreRemove<D>(stored: Option<string>, id: string,
                          encode: seq<HistoryItem<D>> -> string,
                          decode: string -> Option<seq<HistoryItem<D>>>): (w: string)
  {
    encode(RemoveHistory(GetHistory(true, stored, decode), id))
  }

  /**
   * Reading back what `addHistory` wrote gives the item followed by the
   * newest entries that were stored before, provided the encoding of the
   * written list reads back as that list.
   */
  lemma ReadAfterAdd<D>(stored: Option<string>, item: HistoryItem<D>,
                        encode: seq<HistoryItem<D>> -> string,
                        decode: string -> Option<seq<HistoryItem<D>>>)
    requires var w := AddHistory(GetHistory(true, stored, decode), item);
             encode(w) != "" && decode(encode(w)) == Some(w)
    ensures var h := GetHistory(true, Some(StoreAdd(stored, item, encode, decode)), decode);
            && 1 <= |h| <= MaxItems
            && h[0] == item
            && GetHistoryById(h, item.id) == Some(item)
  {
    AddedIsFound(GetHistory(true, stored, decode), item);
  }

  /** Reading back what `removeHistory` wrote finds no entry with `id`. */
  lemma ReadAfterRemove<D>(stored: Option<string>, id: string,
                           encode: seq<HistoryItem<D>> -> string,
                           decode: string -> Option<seq<HistoryItem<D>>>)
    requires var w := RemoveHistory(GetHistory(true, stored, decode), id);
             encode(w) != "" && decode(encode(w)) == Some(w)
    ensures GetHistoryById(GetHistory(true, Some(StoreRemove(stored, id, encode, decode)), decode), id).None?
  {
  }
}
