/**
 * The landing page's event listing: a fixed list of events narrowed by a category pill and
 * by a search over the titles that ignores letter case.
 */
module EventListing {
  import opened Text
  import opened Seqs

  /** An event of the listing; the picture, date and time are only displayed. */
  datatype Event = Event(id: nat, title: string, category: string, description: string)

  const AllEvents := "All Events"

  /** The category pills, in the order they are shown. */
  const Categories: seq<string> := [AllEvents, "Workshop", "Seminar", "Hackathons", "Student Week"]

  /** The events the page lists. */
  const Events: seq<Event> := [
    Event(1, "Speak and Shine", "Seminar", "Build confidence and express ideas through powerful speaking."),
    Event(2, "Escape Room", "Workshop", "Play the game, solve clues, beat the clock, and escape as a team."),
    Event(3, "Hackathon", "Hackathons", "Code, collaborate, and create innovative solutions."),
    Event(4, "Squid Game", "Student Week", "Compete in fun, high-energy challenge rounds with exciting tasks."),
    Event(5, "Puzzle Fuzzle", "Workshop", "Test your brain with tricky puzzles and riddles in a fun environment."),
    Event(6, "Web Developer", "Workshop", "Learn and build modern web experiences with hands-on practice.")
  ]

  /** `matchesCategory`: every event under "All Events", otherwise those of the chosen category. */
  predicate InCategory(e: Event, active: string)
  {
    active == AllEvents || e.category == active
  }

  /** `matchesSearch`: the lower-cased title contains the lower-cased search term. */
  predicate FoundBy(e: Event, term: string)
  {
    Contains(Lower(e.title), Lower(term))
  }

  /** The filter's callback. */
  function Matches(active: string, term: string): Event -> bool
  {
    (e: Event) => InCategory(e, active) && FoundBy(e, term)
  }

  /** `filteredEvents`. */
  function Filtered(events: seq<Event>, active: string, term: string): seq<Event>
  {
    Filter(events, Matches(active, term))
  }

  /**
   * The listing keeps the events' order and shows exactly the events of the chosen category
   * whose title contains the term, ignoring case.
   */
  lemma FilteredExact(events: seq<Event>, active: string, term: string)
    ensures IsSubsequence(Filtered(events, active, term), events)
    ensures forall e :: e in Filtered(events, active, term) <==>
                        e in events && InCategory(e, active) && FoundBy(e, term)
  {
    FilterIsSubsequence(events, Matches(active, term));
    forall e
      ensures e in Filtered(events, active, term) <==> e in events && InCategory(e, active) && FoundBy(e, term)
    {
      FilterMembership(events, Matches(active, term), e);
    }
  }

  /** With an empty search the category alone decides, and "All Events" shows every event. */
  lemma EmptySearchShowsCategory(events: seq<Event>, active: string)
    ensures forall e :: e in Filtered(events, active, "") <==> e in events && InCategory(e, active)
    ensures Filtered(events, AllEvents, "") == events
  {
    forall e | true
      ensures FoundBy(e, "")
    {
      ContainsEmpty(Lower(e.title));
    }
    FilteredExact(events, active, "");
    FilterAll(events, Matches(AllEvents, ""));
  }

  /** Typing the term in another case finds the same events. */
  lemma SearchIgnoresCase(events: seq<Event>, active: string, term: string)
    ensures Filtered(events, active, Lower(term)) == Filtered(events, active, term)
  {
    LowerIdempotent(term);
    FilterExt(events, Matches(active, Lower(term)), Matches(active, term));
  }

  /** `e => e.category === active`. */
  function OfCategory(active: string): Event -> bool
  {
    (e: Event) => e.category == active
  }

  /** A category pill narrows the "All Events" results for the same term to that category's events, in order. */
  lemma CategoryNarrowsAll(events: seq<Event>, active: string, term: string)
    requires active != AllEvents
    ensures Filtered(events, active, term) == Filter(Filtered(events, AllEvents, term), OfCategory(active))
  {
    FilterFilter(events, Matches(AllEvents, term), OfCategory(active), Matches(active, term));
  }

  /** Every listed event belongs to one of the pills other than "All Events". */
  lemma EventsCategorised()
    ensures forall i :: 0 <= i < |Events| ==> Events[i].category in Categories[1..]
  {
  }

  /** The listing's state: the search term and the chosen category. */
  class Listing {
    var searchTerm: string
    var activeCategory: string

    constructor ()
      ensures searchTerm == "" && activeCategory == AllEvents
    {
      searchTerm := "";
      activeCategory := AllEvents;
    }

    /** The events on screen. */
    function Shown(): seq<Event>
      reads this
    {
      Filtered(Events, activeCategory, searchTerm)
    }

    /** "N events found": the number of events on screen, never more than the list holds. */
    function FoundCount(): (n: nat)
      reads this
      ensures n <= |Events|
    {
      |Shown()|
    }

    /** Typing in the search box. */
    method Search(term: string)
      modifies this
      ensures searchTerm == term && activeCategory == old(activeCategory)
    {
      searchTerm := term;
    }

    /** Clicking a category pill. */
    method Choose(category: string)
      modifies this
      ensures activeCategory == category && searchTerm == old(searchTerm)
    {
      activeCategory := category;
    }
  }
}
