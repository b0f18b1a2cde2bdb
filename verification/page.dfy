/**
 * `src/app/page.tsx`: the home page's state machine. The page moves between
 * home, loading, result and error; it holds the current analysis, the
 * in-memory history list, the thumbnail, the error shown and whether the
 * current analysis has been saved. Browser storage is the `stored` list
 * (what `getHistory` returns); the clock and `crypto.randomUUID` are
 * parameters; image compression and `fetch` become an `Outcome`.
 */
module HomePage {
  import opened Wrappers
  import JsString
  import opened Types
  import Storage

  datatype AppState = Home | Loading | ShowingResult | ShowingError

  datatype ErrorInfo = ErrorInfo(kind: string, message: string)

  datatype Page<D> = Page(appState: AppState, result: Option<D>,
                          history: seq<HistoryItem<D>>, stored: seq<HistoryItem<D>>,
                          thumbnail: string, error: Option<ErrorInfo>, saved: bool)

  const NoTextFoundMessage := "英語のテキストが見つかりませんでした"
  const ApiErrorMessage := "通信エラーが発生しました"
  const ParseErrorMessage := "データの解析に失敗しました"
  const TextTooLongMessage := "画像が大きすぎます。もう少し小さい画像をお試しください"
  /** The message for an error type missing from the table. */
  const FallbackMessage := "エラーが発生しました"
  /** The message for an exception thrown while compressing or fetching. */
  const ThrownMessage := "通信エラーが発生しました。もう一度お試しください。"

  /** The error types `ERROR_MESSAGES` knows. */
  predicate KnownKind(kind: string) {
    kind in {NoTextFoundCode, ApiErrorCode, ParseErrorCode, TextTooLongCode}
  }

  /** `ERROR_MESSAGES[kind] || "エラーが発生しました"`. */
  function ErrorMessage(kind: string): (message: string)
    ensures !KnownKind(kind) <==> message == FallbackMessage
    ensures kind == NoTextFoundCode ==> message == NoTextFoundMessage
    ensures kind == ApiErrorCode ==> message == ApiErrorMessage
    ensures kind == ParseErrorCode ==> message == ParseErrorMessage
    ensures kind == TextTooLongCode ==> message == TextTooLongMessage
  {
    if kind == NoTextFoundCode then NoTextFoundMessage
    else if kind == ApiErrorCode then ApiErrorMessage
    else if kind == ParseErrorCode then ParseErrorMessage
    else if kind == TextTooLongCode then TextTooLongMessage
    else FallbackMessage
  }

  /** `data.error || "API_ERROR"`: an absent or empty error type counts as API_ERROR. */
  function ErrorKind(error: Option<string>): (kind: string)
    ensures kind != ""
    ensures error.Some? && error.value != "" ==> kind == error.value
    ensures error.None? || error == Some("") ==> kind == ApiErrorCode
  {
    match error
    case Some(e) => if e != "" then e else ApiErrorCode
    case None => ApiErrorCode
  }

  /** The page as first rendered, before the mount effect. */
  function Init<D>(stored: seq<HistoryItem<D>>): (p: Page<D>)
    ensures p.appState == Home && p.result.None? && p.error.None? && !p.saved
    ensures p.history == [] && p.stored == stored && p.thumbnail == ""
  {
    Page(Home, None, [], stored, "", None, false)
  }

  /** The mount effect: the history list is loaded from storage. */
  function Mount<D>(p: Page<D>): (r: Page<D>)
    ensures r.history == p.stored && r.stored == p.stored
    ensures r.appState == p.appState && r.result == p.result && r.error == p.error && r.saved == p.saved
    ensures r.thumbnail == p.thumbnail
  {
    p.(history := p.stored)
  }

  /** `s.padStart(2, "0")`: zeros in front up to two characters. */
  function PadTwo(s: string): (r: string)
    ensures |r| == if |s| >= 2 then |s| else 2
    ensures r[|r| - |s|..] == s
    ensures forall i :: 0 <= i < |r| - |s| ==> r[i] == '0'
  {
    if |s| >= 2 then s else seq(2 - |s|, _ => '0') + s
  }

  predicate IsDigits(s: string) {
    forall i :: 0 <= i < |s| ==> '0' <= s[i] <= '9'
  }

  /** The number a string of decimal digits denotes. */
  function DigitsValue(s: string): (n: nat)
    requires IsDigits(s)
  {
    if |s| == 0 then 0 else DigitsValue(s[..|s| - 1]) * 10 + (s[|s| - 1] as int - '0' as int)
  }

  /** `String(n)` for a non-negative integer: decimal digits, no leading zero. */
  function Decimal(n: nat): (s: string)
    ensures |s| >= 1 && IsDigits(s)
    ensures DigitsValue(s) == n
    ensures |s| > 1 ==> s[0] != '0'
    ensures n < 10 <==> |s| == 1
  {
    var last := [('0' as int + n % 10) as char];
    if n < 10 then last
    else
      var init := Decimal(n / 10);
      assert (init + last)[..|init + last| - 1] == init;
      init + last
  }

  /** Padding with zeros does not change the number a numeral denotes. */
  lemma PaddedValue(n: nat)
    ensures IsDigits(PadTwo(Decimal(n))) && DigitsValue(PadTwo(Decimal(n))) == n
  {
    var d := Decimal(n);
    if |d| < 2 {
      var m := PadTwo(d);
      assert m == ['0'] + d;
      assert m[..1] == ['0'];
      assert DigitsValue(['0']) == 0 by {
        assert ['0'][..0] == [];
      }
    }
  }

  /** The local date and time a history label shows; `month` counts from 1. */
  datatype Stamp = Stamp(month: nat, day: nat, hours: nat, minutes: nat)

  const LabelPrefix := "解析 "

  /** The text before and after the first `c`, if `s` holds one. */
  function SplitAt(s: string, c: char): (r: Option<(string, string)>)
    ensures r.Some? ==> s == r.value.0 + [c] + r.value.1 && c !in r.value.0
    ensures r.None? <==> c !in s
  {
    var i := JsString.IndexOf(s, c, 0);
    if i == -1 then None
    else
      assert s == s[..i] + [c] + s[i + 1..];
      Some((s[..i], s[i + 1..]))
  }

  /** Splitting at the first `c` recovers the text on each side of it. */
  lemma SplitAtFirst(a: string, c: char, rest: string)
    requires c !in a
    ensures SplitAt(a + [c] + rest, c) == Some((a, rest))
  {
    var s := a + [c] + rest;
    assert s[|a|] == c;
    var i := JsString.IndexOf(s, c, 0);
    assert forall k :: 0 <= k < |a| ==> s[k] == a[k];
    assert i == |a|;
    assert s[..i] == a;
    assert s[i + 1..] == rest;
  }

  /** Reads the date and time back from a label `解析 M/D H:MM`. */
  function ReadLabel(s: string): (r: Option<Stamp>)
    ensures r.Some? ==> |s| >= |LabelPrefix| && s[..|LabelPrefix|] == LabelPrefix
  {
    if |s| < |LabelPrefix| || s[..|LabelPrefix|] != LabelPrefix then None
    else
      match SplitAt(s[|LabelPrefix|..], '/')
      case None => None
      case Some((month, t)) =>
        match SplitAt(t, ' ')
        case None => None
        case Some((day, u)) =>
          match SplitAt(u, ':')
          case None => None
          case Some((hours, minutes)) =>
            if IsDigits(month) && IsDigits(day) && IsDigits(hours) && IsDigits(minutes) then
              Some(Stamp(DigitsValue(month), DigitsValue(day), DigitsValue(hours), DigitsValue(minutes)))
            else None
  }

  /** A numeral holds no separator character. */
  lemma DigitsHoldNo(s: string, c: char)
    requires IsDigits(s) && !('0' <= c <= '9')
    ensures c !in s
  {
  }

  /**
   * The history label `解析 M/D H:MM` built from the local date: `month0` is
   * `getMonth()` (from 0), the minutes are padded to two digits. The label
   * reads back as the 1-based month, the day, the hour and the minutes.
   */
  function SaveLabel(month0: nat, day: nat, hours: nat, minutes: nat): (labelText: string)
    ensures ReadLabel(labelText) == Some(Stamp(month0 + 1, day, hours, minutes))
    ensures |labelText| >= 2
  {
    LabelReadsBack(month0, day, hours, minutes);
    LabelPrefix + (Decimal(month0 + 1) + "/" + (Decimal(day) + " " + (Decimal(hours) + ":" + PadTwo(Decimal(minutes)))))
  }

  /** For a clock reading, the label's last two characters are the minutes, padded to two digits. */
  lemma SaveLabelEndsWithMinutes(month0: nat, day: nat, hours: nat, minutes: nat)
    requires minutes < 60
    ensures var labelText := SaveLabel(month0, day, hours, minutes);
            |labelText| >= 2
            && IsDigits(labelText[|labelText| - 2..]) && DigitsValue(labelText[|labelText| - 2..]) == minutes
  {
    var l := SaveLabel(month0, day, hours, minutes);
    var m := PadTwo(Decimal(minutes));
    LabelTail(Decimal(month0 + 1), Decimal(day), Decimal(hours), m);
    assert l[|l| - 2..] == m;
    PaddedMinutesAtEnd(l, minutes);
  }

  /** A text ending in the padded minutes ends in two digits denoting them. */
  lemma PaddedMinutesAtEnd(l: string, minutes: nat)
    requires minutes < 60 && |l| >= 2 && l[|l| - 2..] == PadTwo(Decimal(minutes))
    ensures IsDigits(l[|l| - 2..]) && DigitsValue(l[|l| - 2..]) == minutes
  {
    MinutesTail(minutes);
  }

  /** Whatever the numerals, a label ends with its minutes field. */
  lemma LabelTail(a: string, b: string, c: string, m: string)
    ensures var labelText := LabelPrefix + (a + "/" + (b + " " + (c + ":" + m)));
            labelText[|labelText| - |m|..] == m
  {
    var inner := c + ":" + m;
    var middle := b + " " + inner;
    var outer := a + "/" + middle;
    assert inner[|inner| - |m|..] == m by {
      EndsWithLast(c + ":", m);
    }
    assert middle[|middle| - |m|..] == m by {
      SuffixKept(b + " ", inner, |m|);
    }
    assert outer[|outer| - |m|..] == m by {
      SuffixKept(a + "/", middle, |m|);
    }
    SuffixKept(LabelPrefix, outer, |m|);
  }

  /** A concatenation ends with its second part. */
  lemma EndsWithLast(x: string, y: string)
    ensures (x + y)[|x + y| - |y|..] == y
  {
  }

  /** Prepending text leaves the last `k` characters alone. */
  lemma SuffixKept(x: string, y: string, k: nat)
    requires k <= |y|
    ensures (x + y)[|x + y| - k..] == y[|y| - k..]
  {
  }

  /** The four numerals of a label are recovered by splitting at its separators. */
  lemma LabelReadsBack(month0: nat, day: nat, hours: nat, minutes: nat)
    ensures var a, b, c, m := Decimal(month0 + 1), Decimal(day), Decimal(hours), PadTwo(Decimal(minutes));
            ReadLabel(LabelPrefix + (a + "/" + (b + " " + (c + ":" + m))))
              == Some(Stamp(month0 + 1, day, hours, minutes))
  {
    PaddedValue(minutes);
    NumeralsReadBack(Decimal(month0 + 1), Decimal(day), Decimal(hours), PadTwo(Decimal(minutes)));
  }

  /** Any four numerals joined as a label are read back as their values. */
  lemma NumeralsReadBack(a: string, b: string, c: string, m: string)
    requires IsDigits(a) && IsDigits(b) && IsDigits(c) && IsDigits(m)
    ensures ReadLabel(LabelPrefix + (a + "/" + (b + " " + (c + ":" + m))))
              == Some(Stamp(DigitsValue(a), DigitsValue(b), DigitsValue(c), DigitsValue(m)))
  {
    var u := c + ":" + m;
    var t := b + " " + u;
    var v := a + "/" + t;
    var s := LabelPrefix + v;
    assert s[..|LabelPrefix|] == LabelPrefix && s[|LabelPrefix|..] == v;
    DigitsHoldNo(a, '/');
    DigitsHoldNo(b, ' ');
    DigitsHoldNo(c, ':');
    SplitAtFirst(a, '/', t);
    SplitAtFirst(b, ' ', u);
    SplitAtFirst(c, ':', m);
  }

  /** Two-digit padding of the minutes reads back as the minutes. */
  lemma MinutesTail(minutes: nat)
    requires minutes < 60
    ensures var m := PadTwo(Decimal(minutes));
            |m| == 2 && IsDigits(m) && DigitsValue(m) == minutes
  {
    var d := Decimal(minutes);
    var m := PadTwo(d);
    if minutes < 10 {
      assert m == ['0'] + d;
      assert m[..1] == ['0'];
      assert DigitsValue(['0']) == 0 by {
        assert ['0'][..0] == [];
      }
    } else {
      assert |d| == 2 by {
        var init := Decimal(minutes / 10);
        assert |init| == 1;
      }
    }
  }

  /**
   * The `new Date()` of a save: the local month (from 0, as `getMonth()`),
   * date, hours and minutes, and the text `toISOString()` gives for it.
   */
  datatype Clock = Clock(month0: nat, day: nat, hours: nat, minutes: nat, iso: string)

  /**
   * `handleSave`: with no analysis, or one already saved, nothing happens.
   * Otherwise one item carrying the analysis, the thumbnail and a label built
   * from the clock is put at the front of storage, the list is reloaded and
   * the analysis is marked saved.
   */
  function HandleSave<D>(p: Page<D>, id: string, now: Clock): (r: Page<D>)
    ensures p.result.None? || p.saved ==> r == p
    ensures p.result.Some? && !p.saved ==>
              && r.saved
              && r.history == r.stored
              && |r.stored| == Min(|p.stored| + 1, Storage.MaxItems)
              && r.stored[0].id == id && r.stored[0].createdAt == now.iso
              && r.stored[0].thumbnail == p.thumbnail && r.stored[0].data == p.result.value
              && r.stored[0].labelText == SaveLabel(now.month0, now.day, now.hours, now.minutes)
              && ReadLabel(r.stored[0].labelText) == Some(Stamp(now.month0 + 1, now.day, now.hours, now.minutes))
              && r.stored[1..] == p.stored[..|r.stored| - 1]
              && r == p.(stored := r.stored, history := r.stored, saved := true)
  {
    if p.result.None? || p.saved then p
    else
      var labelText := SaveLabel(now.month0, now.day, now.hours, now.minutes);
      var item := HistoryItem(id, now.iso, p.thumbnail, labelText, p.result.value);
      var stored := Storage.AddHistory(p.stored, item);
      p.(stored := stored, history := stored, saved := true)
  }

  /** The synchronous start of `handleImageSelected`. */
  function StartAnalysis<D>(p: Page<D>): (r: Page<D>)
    ensures r.appState == Loading && r.error.None? && !r.saved
    ensures r.result == p.result && r.history == p.history && r.stored == p.stored && r.thumbnail == p.thumbnail
  {
    p.(appState := Loading, error := None, saved := false)
  }

  /** How the awaited part of `handleImageSelected` ends. */
  datatype Outcome<D> =
    | CompressionFailed                                 // a `resizeImage` promise rejected
    | RequestFailed(thumb: string)                      // `fetch` or `response.json()` threw
    | Answered(thumb: string, response: ApiResponse<D>) // the parsed response body

  /**
   * The rest of `handleImageSelected`: a thrown exception shows the retry
   * message under API_ERROR; an answer without success or data shows the
   * table message for its error type; a successful answer shows the result.
   */
  function FinishAnalysis<D>(p: Page<D>, o: Outcome<D>): (r: Page<D>)
    ensures r.history == p.history && r.stored == p.stored && r.saved == p.saved
    ensures r.thumbnail == if o.CompressionFailed? then p.thumbnail else o.thumb
    ensures o.CompressionFailed? || o.RequestFailed? ==>
              r.appState == ShowingError && r.error == Some(ErrorInfo(ApiErrorCode, ThrownMessage)) && r.result == p.result
    ensures o.Answered? ==>
              (r.appState == ShowingResult <==> o.response.success && o.response.data.Some?)
    ensures o.Answered? && r.appState == ShowingResult ==> r.result == o.response.data && r.error == p.error
    ensures o.Answered? && r.appState != ShowingResult ==>
              && r.appState == ShowingError
              && r.result == p.result
              && r.error.Some?
              && r.error.value.kind == ErrorKind(o.response.error)
              && r.error.value.message == ErrorMessage(r.error.value.kind)
  {
    match o
    case CompressionFailed =>
      p.(appState := ShowingError, error := Some(ErrorInfo(ApiErrorCode, ThrownMessage)))
    case RequestFailed(thumb) =>
      p.(thumbnail := thumb, appState := ShowingError, error := Some(ErrorInfo(ApiErrorCode, ThrownMessage)))
    case Answered(thumb, response) =>
      if !response.success || response.data.None? then
        var kind := ErrorKind(response.error);
        p.(thumbnail := thumb, appState := ShowingError, error := Some(ErrorInfo(kind, ErrorMessage(kind))))
      else
        p.(thumbnail := thumb, result := response.data, appState := ShowingResult)
  }

  /** `handleImageSelected` from start to settled state. */
  function HandleImageSelected<D>(p: Page<D>, o: Outcome<D>): (r: Page<D>)
    ensures r.appState == ShowingResult || r.appState == ShowingError
    ensures !r.saved
    ensures r.appState == ShowingError ==> r.error.Some?
    ensures r.appState == ShowingResult ==> o.Answered? && r.result == o.response.data && r.result.Some?
  {
    FinishAnalysis(StartAnalysis(p), o)
  }

  /** `handleHistorySelect`: a saved analysis opens as already saved. */
  function HistorySelect<D>(p: Page<D>, item: HistoryItem<D>): (r: Page<D>)
    ensures r.appState == ShowingResult && r.result == Some(item.data) && r.saved
    ensures r.history == p.history && r.stored == p.stored && r.error == p.error
    ensures r.thumbnail == p.thumbnail
  {
    p.(result := Some(item.data), saved := true, appState := ShowingResult)
  }

  /** `handleBackToHome`: everything about the last analysis is cleared and the list reloaded. */
  function BackToHome<D>(p: Page<D>): (r: Page<D>)
    ensures r.appState == Home && r.result.None? && r.error.None? && !r.saved
    ensures r.history == p.stored && r.stored == p.stored && r.thumbnail == p.thumbnail
  {
    p.(appState := Home, result := None, error := None, saved := false, history := p.stored)
  }

  /** The screen the page renders. */
  datatype Screen<D> =
    | LoadingScreen(thumbnail: string)
    | ResultScreen(data: D, saved: bool)
    | ErrorScreen(message: string, showNoTextHint: bool)
    | HomeScreen(items: seq<HistoryItem<D>>)

  /**
   * The render selection: loading first; the result view only with a result;
   * the error view only with an error; home otherwise.
   */
  function Render<D>(p: Page<D>): (s: Screen<D>)
    ensures s.LoadingScreen? <==> p.appState == Loading
    ensures s.ResultScreen? <==> p.appState == ShowingResult && p.result.Some?
    ensures s.ErrorScreen? <==> p.appState == ShowingError && p.error.Some?
    ensures s.ErrorScreen? ==> s.message == p.error.value.message
                               && (s.showNoTextHint <==> p.error.value.kind == NoTextFoundCode)
    ensures s.HomeScreen? ==> s.items == p.history
    ensures s.LoadingScreen? ==> s.thumbnail == p.thumbnail
    ensures s.ResultScreen? ==> s.data == p.result.value && s.saved == p.saved
  {
    if p.appState == Loading then LoadingScreen(p.thumbnail)
    else if p.appState == ShowingResult && p.result.Some? then ResultScreen(p.result.value, p.saved)
    else if p.appState == ShowingError && p.error.Some? then
      ErrorScreen(p.error.value.message, p.error.value.kind == NoTextFoundCode)
    else HomeScreen(p.history)
  }

  /**
   * What the handlers keep true: the result and error states always have
   * something to show, and only an analysis that exists can be saved.
   */
  predicate Consistent<D>(p: Page<D>) {
    && (p.appState == ShowingResult ==> p.result.Some?)
    && (p.appState == ShowingError ==> p.error.Some?)
    && (p.saved ==> p.result.Some?)
  }

  /** Every handler keeps the page consistent. */
  lemma TransitionsKeepConsistent<D>(p: Page<D>, o: Outcome<D>, item: HistoryItem<D>,
                                     id: string, now: Clock)
    requires Consistent(p)
    ensures Consistent(Init<D>(p.stored))
    ensures Consistent(Mount(p))
    ensures Consistent(HandleSave(p, id, now))
    ensures Consistent(StartAnalysis(p))
    ensures Consistent(FinishAnalysis(StartAnalysis(p), o))
    ensures Consistent(HistorySelect(p, item))
    ensures Consistent(BackToHome(p))
  {
  }

  /** On a consistent page the screen is exactly the one its state names. */
  lemma RenderFollowsState<D>(p: Page<D>)
    requires Consistent(p)
    ensures Render(p).LoadingScreen? <==> p.appState == Loading
    ensures Render(p).ResultScreen? <==> p.appState == ShowingResult
    ensures Render(p).ErrorScreen? <==> p.appState == ShowingError
    ensures Render(p).HomeScreen? <==> p.appState == Home
  {
  }

  /** Saving twice stores one item. */
  lemma SaveTwiceSavesOnce<D>(p: Page<D>, id1: string, now1: Clock, id2: string, now2: Clock)
    ensures var once := HandleSave(p, id1, now1);
            HandleSave(once, id2, now2) == once
  {
  }

  /** A history item opened from the list cannot be saved a second time. */
  lemma OpenedItemIsNotSavedAgain<D>(p: Page<D>, item: HistoryItem<D>,
                                     id: string, now: Clock)
    ensures var fromList := HistorySelect(p, item);
            HandleSave(fromList, id, now) == fromList
  {
  }
}
