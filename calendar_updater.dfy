/**
 * The calendar updater: when a source URL is configured, take the calendar fetched from it,
 * copy its top-level properties into a new calendar, and add every event from it except
 * those whose summary contains the filter keyword, ignoring letter case.
 */
module CalendarUpdater {
  import opened Wrappers
  import opened Text
  import opened Seqs
  import opened ICalendar

  /** The keyword whose events are removed. */
  const FilterKeyword: string := "Office Hours"

  /** The configured source URL is usable: present and, as a Python string, truthy (non-empty). */
  predicate SourceConfigured(sourceUrl: Option<string>) {
    sourceUrl.Some? && sourceUrl.value != ""
  }

  /** A top-level property is copied unless its upper-cased key is "VEVENT". */
  predicate IsCopied(p: Property) {
    Upper(p.key) != "VEVENT"
  }

  /** A walked component is an event when its name is exactly "VEVENT". */
  predicate IsEvent(c: Component) {
    c.name == "VEVENT"
  }

  /**
   * An event with this summary is kept: the upper-cased keyword does not occur in the
   * upper-cased summary, an absent summary counting as the empty string.
   */
  predicate Keeps(keyword: string, summary: Option<string>): (r: bool)
    ensures r <==> !IsSubstring(Upper(keyword), Upper(summary.GetOr("")))
  {
    !Contains(Upper(keyword), Upper(summary.GetOr("")))
  }

  /** The walked components that end up in the new calendar: events that are kept. */
  function Kept(keyword: string): Component -> bool {
    c => IsEvent(c) && Keeps(keyword, c.summary)
  }

  /** The walked components that are filtered out: events that are not kept. */
  function Dropped(keyword: string): Component -> bool {
    c => IsEvent(c) && !Keeps(keyword, c.summary)
  }

  /** The properties of the new calendar, given the source's top-level properties. */
  function CopiedProperties(items: seq<Property>): (r: seq<Property>)
    ensures |r| <= |items|
    ensures forall k :: 0 <= k < |r| ==> IsCopied(r[k])
  {
    Retain(items, IsCopied)
  }

  /** The components of the new calendar, given the walked components of the source. */
  function KeptEvents(walk: seq<Component>, keyword: string): (r: seq<Component>)
    ensures |r| <= |walk|
    ensures forall k :: 0 <= k < |r| ==> IsEvent(r[k]) && Keeps(keyword, r[k].summary)
  {
    Retain(walk, Kept(keyword))
  }

  /**
   * The filtering step: a new calendar with the copied properties and the kept events,
   * together with the number of events seen and the number filtered out.
   */
  method FilterCalendar(source: SourceCalendar, keyword: string)
    returns (newCal: Calendar, eventCount: nat, filteredCount: nat)
    ensures fresh(newCal)
    ensures newCal.properties == CopiedProperties(source.items)
    ensures newCal.components == KeptEvents(source.walk, keyword)
    ensures eventCount == Count(source.walk, IsEvent)
    ensures filteredCount == Count(source.walk, Dropped(keyword))
    ensures filteredCount <= eventCount
    ensures |newCal.components| == eventCount - filteredCount
  {
    newCal := new Calendar();
    var items := source.items;
    for i := 0 to |items|
      invariant newCal.properties == Retain(items[..i], IsCopied)
      invariant newCal.components == []
    {
      var key, value := items[i].key, items[i].value;
      assert items[..i + 1][..i] == items[..i];
      if IsCopied(items[i]) {
        newCal.Add(key, value);
      }
    }
    assert items[..|items|] == items;

    eventCount, filteredCount := 0, 0;
    var walk := source.walk;
    for i := 0 to |walk|
      invariant newCal.properties == CopiedProperties(items)
      invariant newCal.components == Retain(walk[..i], Kept(keyword))
      invariant eventCount == Count(walk[..i], IsEvent)
      invariant filteredCount == Count(walk[..i], Dropped(keyword))
      invariant filteredCount <= eventCount
      invariant |newCal.components| == eventCount - filteredCount
    {
      var component := walk[i];
      assert walk[..i + 1][..i] == walk[..i];
      if IsEvent(component) {
        eventCount := eventCount + 1;
        var summary := Upper(component.summary.GetOr(""));
        if !Contains(Upper(keyword), summary) {
          newCal.AddComponent(component);
        } else {
          filteredCount := filteredCount + 1;
        }
      }
    }
    assert walk[..|walk|] == walk;
  }

  /**
   * One run. `fetched` stands for what downloading and parsing the calendar at the URL
   * yields, `None` when the request or the parse raised (the run then reports the error
   * and ends normally). `fetchAttempted` records whether the download was started;
   * `output` is the calendar that would be serialised to the output file, or null.
   */
  method Run(sourceUrl: Option<string>, fetched: Option<SourceCalendar>, keyword: string)
    returns (fetchAttempted: bool, output: Calendar?)
    ensures fetchAttempted <==> SourceConfigured(sourceUrl)
    ensures output != null <==> SourceConfigured(sourceUrl) && fetched.Some?
    ensures output != null ==> fresh(output)
    ensures output != null ==> output.properties == CopiedProperties(fetched.value.items)
    ensures output != null ==> output.components == KeptEvents(fetched.value.walk, keyword)
  {
    if !SourceConfigured(sourceUrl) {
      return false, null;
    }
    fetchAttempted := true;
    if fetched.None? {
      return fetchAttempted, null;
    }
    var eventCount, filteredCount;
    output, eventCount, filteredCount := FilterCalendar(fetched.value, keyword);
  }

  /**
   * Every top-level property whose upper-cased key is not "VEVENT" is copied unchanged and in
   * source order, and nothing else is copied.
   */
  lemma CopiedPropertiesInOrder(items: seq<Property>)
    ensures forall p :: p in CopiedProperties(items) <==> p in items && IsCopied(p)
    ensures exists idx: seq<nat> :: SelectedBy(CopiedProperties(items), items, IsCopied, idx)
  {
    forall p ensures p in CopiedProperties(items) <==> p in items && IsCopied(p) {
      RetainMembership(items, IsCopied, p);
    }
    RetainSelectsInOrder(items, IsCopied);
    var idx: seq<nat> :| SelectedBy(Retain(items, IsCopied), items, IsCopied, idx);
    assert SelectedBy(CopiedProperties(items), items, IsCopied, idx);
  }

  /**
   * The new calendar holds exactly the kept events of the walk, each unchanged and in the
   * order of the walk; no component that is not an event is added.
   */
  lemma KeptEventsInOrder(walk: seq<Component>, keyword: string)
    ensures forall c :: c in KeptEvents(walk, keyword) <==>
      c in walk && IsEvent(c) && Keeps(keyword, c.summary)
    ensures exists idx: seq<nat> :: SelectedBy(KeptEvents(walk, keyword), walk, Kept(keyword), idx)
  {
    forall c ensures c in KeptEvents(walk, keyword) <==>
      c in walk && IsEvent(c) && Keeps(keyword, c.summary)
    {
      RetainMembership(walk, Kept(keyword), c);
    }
    RetainSelectsInOrder(walk, Kept(keyword));
    var idx: seq<nat> :| SelectedBy(Retain(walk, Kept(keyword)), walk, Kept(keyword), idx);
    assert SelectedBy(KeptEvents(walk, keyword), walk, Kept(keyword), idx);
  }

  /**
   * Every event is either kept or filtered: the kept events number the events seen minus
   * the events filtered, and no more events are filtered than are seen.
   */
  lemma {:induction false} EventCounts(walk: seq<Component>, keyword: string)
    ensures Count(walk, IsEvent) == |KeptEvents(walk, keyword)| + Count(walk, Dropped(keyword))
    ensures Count(walk, Dropped(keyword)) <= Count(walk, IsEvent)
  {
    RetainLength(walk, Kept(keyword));
    CountSplit(walk, IsEvent, Kept(keyword), Dropped(keyword));
  }

  /** A component that is not an event, wherever it is walked, is neither counted nor added. */
  lemma NonEventIgnored(before: seq<Component>, c: Component, after: seq<Component>, keyword: string)
    requires !IsEvent(c)
    ensures KeptEvents(before + [c] + after, keyword) == KeptEvents(before + after, keyword)
    ensures Count(before + [c] + after, IsEvent) == Count(before + after, IsEvent)
    ensures Count(before + [c] + after, Dropped(keyword)) == Count(before + after, Dropped(keyword))
  {
    var k, d := Kept(keyword), Dropped(keyword);
    RetainAppend(before + [c], after, k);
    RetainAppend(before, [c], k);
    RetainAppend(before, after, k);
    assert Retain([c], k) == [] by { assert [c][..0] == []; }
    CountAppend(before + [c], after, IsEvent);
    CountAppend(before, [c], IsEvent);
    CountAppend(before, after, IsEvent);
    assert Count([c], IsEvent) == 0 by { assert [c][..0] == []; }
    CountAppend(before + [c], after, d);
    CountAppend(before, [c], d);
    CountAppend(before, after, d);
    assert Count([c], d) == 0 by { assert [c][..0] == []; }
  }

  /**
   * An event without a summary is kept exactly when the keyword is non-empty (an empty
   * keyword occurs in every string); in particular it is kept under the configured keyword.
   */
  lemma NoSummaryKept(keyword: string)
    ensures Keeps(keyword, None) <==> keyword != ""
    ensures Keeps(FilterKeyword, None)
  {
    EmptyContainsOnlyEmpty(Upper(keyword));
    EmptyContainsOnlyEmpty(Upper(FilterKeyword));
  }

  /** Changing the letter case of a summary does not change whether its event is kept. */
  lemma SummaryCaseIrrelevant(keyword: string, a: string, b: string)
    requires SameUpToCase(a, b)
    ensures Keeps(keyword, Some(a)) == Keeps(keyword, Some(b))
  {
    UpperEqualIffSameUpToCase(a, b);
  }

  /** Changing the letter case of the keyword does not change whether an event is kept. */
  lemma KeywordCaseIrrelevant(k1: string, k2: string, summary: Option<string>)
    requires SameUpToCase(k1, k2)
    ensures Keeps(k1, summary) == Keeps(k2, summary)
  {
    UpperEqualIffSameUpToCase(k1, k2);
  }

  /** Upper-casing the summary beforehand does not change the decision. */
  lemma {:induction false} UpperSummaryIrrelevant(keyword: string, s: string)
    ensures Keeps(keyword, Some(Upper(s))) == Keeps(keyword, Some(s))
  {
    UpperIdempotent(s);
  }

  /**
   * Three events titled "Office Hours - Monday", "Lecture 1" and "office hours (extra)":
   * under the configured keyword only "Lecture 1" is kept, three events are counted and two
   * filtered.
   */
  lemma OfficeHoursScenario()
    ensures var monday := Component("VEVENT", Some("Office Hours - Monday"), []);
      var lecture := Component("VEVENT", Some("Lecture 1"), []);
      var extra := Component("VEVENT", Some("office hours (extra)"), []);
      && KeptEvents([monday, lecture, extra], FilterKeyword) == [lecture]
      && Count([monday, lecture, extra], IsEvent) == 3
      && Count([monday, lecture, extra], Dropped(FilterKeyword)) == 2
  {
    var monday := Component("VEVENT", Some("Office Hours - Monday"), []);
    var lecture := Component("VEVENT", Some("Lecture 1"), []);
    var extra := Component("VEVENT", Some("office hours (extra)"), []);
    OfficeHoursDecisions();
    DropKeepDrop(monday, lecture, extra, FilterKeyword);
  }

  /** Three events of which only the middle one is kept. */
  lemma DropKeepDrop(a: Component, b: Component, c: Component, keyword: string)
    requires IsEvent(a) && IsEvent(b) && IsEvent(c)
    requires !Keeps(keyword, a.summary) && Keeps(keyword, b.summary) && !Keeps(keyword, c.summary)
    ensures KeptEvents([a, b, c], keyword) == [b]
    ensures Count([a, b, c], IsEvent) == 3
    ensures Count([a, b, c], Dropped(keyword)) == 2
  {
    var k, d := Kept(keyword), Dropped(keyword);
    assert !k(a) && k(b) && !k(c);
    assert d(a) && !d(b) && d(c);
    assert [a, b, c][..2] == [a, b] && [a, b][..1] == [a] && [a][..0] == [];
    assert Retain([a], k) == [] && Retain([a, b], k) == [b];
    assert Count([a], IsEvent) == 1 && Count([a, b], IsEvent) == 2;
    assert Count([a], d) == 1 && Count([a, b], d) == 1;
  }

  /** A summary that begins with the keyword, in any letter case, has its event dropped. */
  lemma PrefixDropped(keyword: string, s: string)
    requires |keyword| <= |s| && Upper(s[..|keyword|]) == Upper(keyword)
    ensures !Keeps(keyword, Some(s))
  {
    UpperPrefix(s, |keyword|);
    assert OccursAt(Upper(keyword), Upper(s), 0);
  }

  /** The configured keyword written in lower case. */
  lemma LowerFilterKeyword()
    ensures Upper("office hours") == Upper(FilterKeyword)
  {
  }

  /** The keep/drop decisions for the three summaries of `OfficeHoursScenario`. */
  lemma OfficeHoursDecisions()
    ensures !Keeps(FilterKeyword, Some("Office Hours - Monday"))
    ensures Keeps(FilterKeyword, Some("Lecture 1"))
    ensures !Keeps(FilterKeyword, Some("office hours (extra)"))
  {
    assert "Office Hours - Monday"[..12] == FilterKeyword;
    assert "office hours (extra)"[..12] == "office hours";
    LowerFilterKeyword();
    PrefixDropped(FilterKeyword, "Office Hours - Monday");
    PrefixDropped(FilterKeyword, "office hours (extra)");
  }
}
