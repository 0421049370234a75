/** The call-history panel: the direction/status filter tabs, the newest-first
    order, the `mm:ss` duration text and the clear button. */
module CallHistoryView {
  import opened Wrappers
  import opened Seqs
  import opened Sorting
  import opened JsText
  import opened CallLog

  /** The filter predicate of the tabs; an unrecognised filter keeps everything. */
  function Keep(filter: string, call: CallRecord): (r: bool)
    ensures filter == "all" || !KnownFilter(filter) ==> r
    ensures call.status == "missed" ==> (r <==> filter != "incoming" && (filter != "outgoing" || call.direction == "outgoing"))
  {
    if filter == "all" then true
    else if filter == "incoming" then call.direction == "incoming" && call.status != "missed"
    else if filter == "outgoing" then call.direction == "outgoing"
    else if filter == "missed" then call.status == "missed"
    else true
  }

  /** The records of one tab, in history order. */
  function Filtered(history: seq<CallRecord>, filter: string): (r: seq<CallRecord>)
    ensures IsSubsequence(r, history)
    ensures forall c | c in history :: c in r <==> Keep(filter, c)
  {
    FilterIsSubsequence(history, (c: CallRecord) => Keep(filter, c));
    Filter(history, (c: CallRecord) => Keep(filter, c))
  }

  predicate KnownFilter(filter: string) {
    filter == "all" || filter == "incoming" || filter == "outgoing" || filter == "missed"
  }

  /** 'all' and any unrecognised value show the whole history. */
  lemma ShowAllFilters(history: seq<CallRecord>, filter: string)
    requires filter == "all" || !KnownFilter(filter)
    ensures Filtered(history, filter) == history
  {
    FilterAll(history, (c: CallRecord) => Keep(filter, c));
  }

  /** Each tab shows exactly the records of its kind, in history order: incoming ones
      that were not missed, all outgoing ones, and missed ones whatever their direction. */
  lemma TabContents(history: seq<CallRecord>)
    ensures forall c | c in Filtered(history, "incoming") :: c.direction == "incoming" && c.status != "missed"
    ensures forall c | c in history && c.direction == "incoming" && c.status != "missed" :: c in Filtered(history, "incoming")
    ensures forall c | c in Filtered(history, "outgoing") :: c.direction == "outgoing"
    ensures forall c | c in history && c.direction == "outgoing" :: c in Filtered(history, "outgoing")
    ensures forall c | c in Filtered(history, "missed") :: c.status == "missed"
    ensures forall c | c in history && c.status == "missed" :: c in Filtered(history, "missed")
    ensures forall f :: IsSubsequence(Filtered(history, f), history)
  {
    forall f ensures IsSubsequence(Filtered(history, f), history) {
      FilterIsSubsequence(history, (c: CallRecord) => Keep(f, c));
    }
  }

  function Timestamp(c: CallRecord): int {
    c.timestamp
  }

  /** `[...filtered].sort((a, b) => b.timestamp - a.timestamp)`. */
  function SortedView(history: seq<CallRecord>, filter: string): (r: seq<CallRecord>)
    ensures multiset(r) == multiset(Filtered(history, filter))
    ensures forall i, j | 0 <= i < j < |r| :: r[i].timestamp >= r[j].timestamp
    ensures forall c | c in r :: c in history && Keep(filter, c)
    ensures |r| <= |history|
  {
    SortDescByCorrect(Filtered(history, filter), Timestamp);
    var r := SortDescBy(Filtered(history, filter), Timestamp);
    forall c | c in r ensures c in history && Keep(filter, c) {
      assert c in multiset(Filtered(history, filter));
    }
    assert |r| == |multiset(r)| == |Filtered(history, filter)|;
    assert |Filtered(history, filter)| <= |history|;
    r
  }

  /** The shown list is the filtered list re-ordered newest first, nothing added or lost. */
  lemma SortedViewFacts(history: seq<CallRecord>, filter: string)
    ensures multiset(SortedView(history, filter)) == multiset(Filtered(history, filter))
    ensures forall i, j | 0 <= i < j < |SortedView(history, filter)| ::
              SortedView(history, filter)[i].timestamp >= SortedView(history, filter)[j].timestamp
  {
    SortDescByCorrect(Filtered(history, filter), Timestamp);
  }

  /** JavaScript's `%`: the remainder takes the sign of the dividend. */
  function JsRem(a: int, b: int): int
    requires b > 0
  {
    if a >= 0 then a % b else -((-a) % b)
  }

  function MinutesText(seconds: int): string {
    PadStart2(IntToString(seconds / 60))
  }

  function SecondsText(seconds: int): string {
    PadStart2(IntToString(JsRem(seconds, 60)))
  }

  /** `formatDuration`: '--:--' for a falsy duration, else minutes (floor division)
      and seconds (JavaScript remainder), each padded to two characters. */
  function FormatDuration(seconds: Option<int>): (r: string)
    ensures !Truthy(seconds) ==> r == "--:--"
    ensures Truthy(seconds) ==> r == MinutesText(seconds.value) + ":" + SecondsText(seconds.value)
  {
    if !Truthy(seconds) then "--:--"
    else MinutesText(seconds.value) + ":" + SecondsText(seconds.value)
  }

  ghost predicate AllDigits(s: string) {
    forall i | 0 <= i < |s| :: IsDigit(s[i])
  }

  /** Padding a non-empty digit string keeps it a digit string with the same value. */
  lemma PadDigits(s: string)
    requires |s| >= 1 && AllDigits(s)
    ensures AllDigits(PadStart2(s)) && DigitsValue(PadStart2(s)) == DigitsValue(s)
  {
    if |s| == 1 {
      assert PadStart2(s) == "0" + s;
      LeadingZero(s);
    }
  }

  /** For a positive duration the text reads back as the duration: two seconds
      digits below 60 after the colon, at least two minutes digits before it, and
      60 * minutes + seconds is the input. */
  lemma FormatDurationRoundTrip(s: int)
    requires s > 0
    ensures var m, ss := MinutesText(s), SecondsText(s);
            && FormatDuration(Some(s)) == m + ":" + ss
            && |m| >= 2 && AllDigits(m) && |ss| == 2 && AllDigits(ss)
            && DigitsValue(ss) < 60
            && 60 * DigitsValue(m) + DigitsValue(ss) == s
  {
    NatToStringRoundTrip(s / 60);
    NatToStringRoundTrip(s % 60);
    PadDigits(NatToString(s / 60));
    PadDigits(NatToString(s % 60));
  }

  /** `clearHistory`: after confirmation the shown list is empty and the user's stored
      history is removed; without confirmation nothing changes. */
  method ClearHistory(store: CallStore, userId: UserId, confirmed: bool, shown: seq<CallRecord>)
    returns (newShown: seq<CallRecord>)
    modifies store
    ensures confirmed ==> newShown == [] && store.storage == old(store.storage) - {userId}
    ensures confirmed ==> store.HistoryOf(userId) == []
    ensures !confirmed ==> newShown == shown && store.storage == old(store.storage)
    ensures store.callStartTime == old(store.callStartTime)
  {
    if confirmed {
      store.storage := store.storage - {userId};
      newShown := [];
    } else {
      newShown := shown;
    }
  }
}
