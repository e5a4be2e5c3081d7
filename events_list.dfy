/** The event list's client-side filter
    (Frontend/src/components/events/Eventslist.jsx): the search box, the
    location, date and category selectors, and the list they leave. */
module EventsList {
  import opened Models
  import opened Strings
  import opened Sequences

  /** The filter state the list reads from the event context. */
  datatype Filters = Filters(searchQuery: string, location: string, date: string, category: string)

  /** No filter set: what the page starts with. */
  const Unfiltered := Filters("", "", "", "All")

  /** The lower-cased title or description contains the lower-cased query. */
  predicate MatchesSearch(e: Event, f: Filters)
  {
    Contains(Lower(e.title), Lower(f.searchQuery)) || Contains(Lower(e.description), Lower(f.searchQuery))
  }

  /** An empty location passes; otherwise a case-insensitive substring test. */
  predicate MatchesLocation(e: Event, f: Filters)
  {
    f.location == "" || Contains(Lower(e.location), Lower(f.location))
  }

  /** An empty date passes; otherwise the date must be equal. */
  predicate MatchesDate(e: Event, f: Filters)
  {
    f.date == "" || e.date == f.date
  }

  /** "All" passes; otherwise the category must be equal. */
  predicate MatchesCategory(e: Event, f: Filters)
  {
    f.category == "All" || e.category == f.category
  }

  /** The predicate passed to `events.filter`. */
  predicate Keep(e: Event, f: Filters)
  {
    MatchesSearch(e, f) && MatchesLocation(e, f) && MatchesDate(e, f) && MatchesCategory(e, f)
  }

  /** `filteredEvents`. */
  function FilterEvents(events: seq<Event>, f: Filters): (r: seq<Event>)
    ensures |r| <= |events|
    ensures forall k :: 0 <= k < |r| ==> Keep(r[k], f)
    decreases |events|
  {
    if |events| == 0 then []
    else
      var n := |events| - 1;
      var prev := FilterEvents(events[..n], f);
      if Keep(events[n], f) then prev + [events[n]] else prev
  }

  /** An event is listed exactly when it is in the list and passes all four
      tests. */
  lemma {:induction false} FilterMembers(events: seq<Event>, f: Filters)
    ensures forall e :: e in FilterEvents(events, f) <==> e in events && Keep(e, f)
    decreases |events|
  {
    if |events| > 0 {
      var n := |events| - 1;
      FilterMembers(events[..n], f);
      assert events == events[..n] + [events[n]];
    }
  }

  /** The listed events keep the order of the fetched list. */
  lemma {:induction false} FilterInOrder(events: seq<Event>, f: Filters)
    ensures IsSubsequence(FilterEvents(events, f), events)
    decreases |events|
  {
    if |events| == 0 {
      assert Embeds([], [], events);
    } else {
      var n := |events| - 1;
      var prev := FilterEvents(events[..n], f);
      var keep := Keep(events[n], f);
      assert FilterEvents(events, f) == if keep then prev + [events[n]] else prev;
      FilterInOrder(events[..n], f);
      SubsequenceSnoc(prev, events[..n], events[n], keep);
      assert events[..n] + [events[n]] == events;
    }
  }

  /** Filtering the filtered list again changes nothing. */
  lemma FilterIdempotent(events: seq<Event>, f: Filters)
    ensures FilterEvents(FilterEvents(events, f), f) == FilterEvents(events, f)
  {
    var r := FilterEvents(events, f);
    KeepAllKept(r, f);
  }

  /** A list whose every event passes is left as it is. */
  lemma {:induction false} KeepAllKept(events: seq<Event>, f: Filters)
    requires forall k :: 0 <= k < |events| ==> Keep(events[k], f)
    ensures FilterEvents(events, f) == events
    decreases |events|
  {
    if |events| > 0 {
      var n := |events| - 1;
      KeepAllKept(events[..n], f);
      assert events[..n] + [events[n]] == events;
    }
  }

  /** With no filter set every event passes, so the whole list is shown. */
  lemma UnfilteredShowsAll(events: seq<Event>)
    ensures FilterEvents(events, Unfiltered) == events
  {
    assert Lower(Unfiltered.searchQuery) == "";
    KeepAllKept(events, Unfiltered);
  }

  /** The search is blind to the case of the query: typing it in capitals
      keeps the same events. */
  lemma SearchIgnoresCase(events: seq<Event>, f: Filters)
    ensures FilterEvents(events, f.(searchQuery := Upper(f.searchQuery))) == FilterEvents(events, f)
  {
    LowerOfUpper(f.searchQuery);
    SameKeepSameList(events, f, f.(searchQuery := Upper(f.searchQuery)));
  }

  /** Two filters that pass the same events leave the same list. */
  lemma {:induction false} SameKeepSameList(events: seq<Event>, f: Filters, g: Filters)
    requires forall e :: Keep(e, f) == Keep(e, g)
    ensures FilterEvents(events, f) == FilterEvents(events, g)
    decreases |events|
  {
    if |events| > 0 {
      SameKeepSameList(events[..|events| - 1], f, g);
    }
  }
}
