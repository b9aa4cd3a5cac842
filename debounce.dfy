/** The search box's state: the term as typed, its debounced copy (`useDebounce` with a
    300 ms delay) and the "Searching..." flag. Time is a sequence of one-millisecond ticks;
    the pending `setTimeout` of the debounce effect is the `timer`. */
module Debounce {

  /** The debounce delay, in ticks. */
  const Delay: nat := 300

  /** The debounce effect's pending timeout: none, or one that will set `value` after
      `remaining` more ticks. */
  datatype Timer = Idle | Armed(value: string, remaining: nat)

  datatype SearchState = SearchState(
    searchTerm: string,
    debouncedSearchTerm: string,
    isSearching: bool,
    timer: Timer)

  /** How the timer's firing treats the "Searching..." flag. `AsWritten` follows the source:
      the flag is reset only by the effect on `debouncedSearchTerm`, which React runs only
      when the debounced value actually changes. `Corrected` resets it whenever the debounced
      value catches up with the term. */
  datatype Variant = AsWritten | Corrected

  /** After mounting: empty term, not searching, and the debounce effect's first timeout
      pending. */
  function Initial(): (s: SearchState)
    ensures !s.isSearching && s.searchTerm == "" && s.debouncedSearchTerm == ""
  {
    SearchState("", "", false, Armed("", Delay))
  }

  /** The debounce effect rerun for a new value: the cleanup clears the pending timeout and a
      fresh one is armed with the full delay. */
  function Rearm(value: string): Timer {
    Armed(value, Delay)
  }

  /** `handleSearchChange`: the flag goes up and the term is replaced. React only dispatches
      `onChange` when the input's text differs from `searchTerm`, so an equal value is not
      an event at all. */
  function OnSearchChange(s: SearchState, value: string): (t: SearchState)
    ensures value != s.searchTerm ==> t.isSearching && t.searchTerm == value
    ensures value != s.searchTerm ==> t.timer == Armed(value, Delay)
    ensures t.debouncedSearchTerm == s.debouncedSearchTerm
  {
    if value == s.searchTerm then s
    else SearchState(value, s.debouncedSearchTerm, true, Rearm(value))
  }

  /** `clearSearch`: the term becomes empty and the flag goes down at once; a changed term
      reruns the debounce effect. */
  function OnClearSearch(s: SearchState): (t: SearchState)
    ensures t.searchTerm == "" && !t.isSearching
    ensures t.debouncedSearchTerm == s.debouncedSearchTerm
    ensures s.searchTerm != "" ==> t.timer == Armed("", Delay)
    ensures s.searchTerm == "" ==> t.timer == s.timer
  {
    var timer := if s.searchTerm == "" then s.timer else Rearm("");
    SearchState("", s.debouncedSearchTerm, false, timer)
  }

  /** One tick. A timeout with one tick left fires: `setDebouncedValue(value)`. The effect
      on `debouncedSearchTerm` resets the flag; as written it runs only if the value changed. */
  function Tick(s: SearchState, variant: Variant): (t: SearchState)
    ensures t.searchTerm == s.searchTerm
  {
    match s.timer
    case Idle => s
    case Armed(value, remaining) =>
      if remaining > 1 then s.(timer := Armed(value, remaining - 1))
      else
        var changed := value != s.debouncedSearchTerm;
        var searching := if variant.Corrected? || changed then false else s.isSearching;
        SearchState(s.searchTerm, value, searching, Idle)
  }

  /** `n` ticks with no input. */
  function Ticks(s: SearchState, n: nat, variant: Variant): (t: SearchState)
    ensures t.searchTerm == s.searchTerm
    decreases n
  {
    if n == 0 then s else Ticks(Tick(s, variant), n - 1, variant)
  }

  /** What holds between events: a pending timeout carries the current term and at most the
      full delay; with none pending, the debounced value has caught up. */
  ghost predicate Valid(s: SearchState) {
    match s.timer
    case Armed(value, remaining) => value == s.searchTerm && 1 <= remaining <= Delay
    case Idle => s.debouncedSearchTerm == s.searchTerm
  }

  /** With the correction, the flag is up only while a timeout is pending. */
  ghost predicate Settles(s: SearchState) {
    Valid(s) && (s.isSearching ==> s.timer.Armed?)
  }

  // ---------------------------------------------------------------------------------------
  // Properties.

  lemma InitialSettles()
    ensures Settles(Initial())
  {
  }

  /** Every event keeps the state valid, in both variants. */
  lemma EventsPreserveValid(s: SearchState, value: string, variant: Variant)
    requires Valid(s)
    ensures Valid(OnSearchChange(s, value))
    ensures Valid(OnClearSearch(s))
    ensures Valid(Tick(s, variant))
  {
  }

  /** With the correction, every event keeps the flag tied to a pending timeout. */
  lemma EventsPreserveSettles(s: SearchState, value: string)
    requires Settles(s)
    ensures Settles(OnSearchChange(s, value))
    ensures Settles(OnClearSearch(s))
    ensures Settles(Tick(s, Corrected))
  {
  }

  /** Before the pending timeout is due, ticks only count down: the debounced value and the
      flag stay as they are. */
  lemma {:induction false} NothingBeforeDelay(s: SearchState, n: nat, variant: Variant)
    requires s.timer.Armed? && n < s.timer.remaining
    ensures Ticks(s, n, variant) == s.(timer := Armed(s.timer.value, s.timer.remaining - n))
    decreases n
  {
    if n > 0 {
      NothingBeforeDelay(Tick(s, variant), n - 1, variant);
    }
  }

  /** When the pending timeout is due, the debounced value becomes the value it carries and
      nothing is pending any more. */
  lemma {:induction false} FiresAtDelay(s: SearchState, variant: Variant)
    requires s.timer.Armed? && s.timer.remaining >= 1
    ensures var t := Ticks(s, s.timer.remaining, variant);
            t.debouncedSearchTerm == s.timer.value && t.timer.Idle?
            && t.isSearching == (variant.AsWritten? && s.timer.value == s.debouncedSearchTerm && s.isSearching)
    decreases s.timer.remaining
  {
    if s.timer.remaining > 1 {
      FiresAtDelay(Tick(s, variant), variant);
    }
  }

  /** With nothing pending, time changes nothing. */
  lemma {:induction false} IdleIsStable(s: SearchState, n: nat, variant: Variant)
    requires s.timer.Idle?
    ensures Ticks(s, n, variant) == s
  {
    if n > 0 {
      IdleIsStable(s, n - 1, variant);
    }
  }

  /** The debounced value becomes the latest term exactly a full delay after the last change:
      not one tick earlier, and a change in between restarts the wait. */
  lemma DebouncedAfterFullDelay(s: SearchState, value: string, n: nat, variant: Variant)
    requires value != s.searchTerm
    ensures n < Delay ==> Ticks(OnSearchChange(s, value), n, variant).debouncedSearchTerm == s.debouncedSearchTerm
    ensures Ticks(OnSearchChange(s, value), Delay, variant).debouncedSearchTerm == value
  {
    var t := OnSearchChange(s, value);
    if n < Delay {
      NothingBeforeDelay(t, n, variant);
    }
    FiresAtDelay(t, variant);
  }

  /** A change before the pending timeout is due cancels it: the full delay starts again. */
  lemma ChangeRestartsDelay(s: SearchState, value: string, n: nat, next: string, variant: Variant)
    requires value != s.searchTerm && next != value && n < Delay
    ensures var t := OnSearchChange(Ticks(OnSearchChange(s, value), n, variant), next);
            t.timer == Armed(next, Delay) && t.debouncedSearchTerm == s.debouncedSearchTerm
  {
    NothingBeforeDelay(OnSearchChange(s, value), n, variant);
  }

  /** With the correction, a full delay after any state reachable from the initial one the
      flag is down and the debounced value equals the term. */
  lemma SearchingSettles(s: SearchState)
    requires Settles(s)
    ensures var t := Ticks(s, Delay, Corrected);
            !t.isSearching && t.debouncedSearchTerm == t.searchTerm && t.timer.Idle?
  {
    match s.timer
    case Idle =>
      IdleIsStable(s, Delay, Corrected);
    case Armed(value, remaining) =>
      FiresAtDelay(s, Corrected);
      var fired := Ticks(s, remaining, Corrected);
      TicksAdd(s, remaining, Delay - remaining, Corrected);
      IdleIsStable(fired, Delay - remaining, Corrected);
  }

  lemma {:induction false} TicksAdd(s: SearchState, m: nat, n: nat, variant: Variant)
    ensures Ticks(s, m + n, variant) == Ticks(Ticks(s, m, variant), n, variant)
    decreases m
  {
    if m > 0 {
      TicksAdd(Tick(s, variant), m - 1, n, variant);
    }
  }

  /** One full delay after mounting, the first timeout has fired and the box is empty and
      idle: the state `StuckSearchingAsWritten` starts from. */
  lemma MountedThenIdle()
    ensures Ticks(Initial(), Delay, AsWritten) == SearchState("", "", false, Idle)
  {
    FiresAtDelay(Initial(), AsWritten);
  }

  /** As written, the flag can stay up for good: type one letter and delete it within the
      delay. The timeout then sets the debounced value to the empty string it already had,
      so the resetting effect's dependency is unchanged and the effect is skipped, and
      "Searching..." is shown however long one waits. */
  lemma StuckSearchingAsWritten(s: SearchState, n: nat)
    requires s == SearchState("", "", false, Idle)
    ensures var t := Ticks(OnSearchChange(OnSearchChange(s, "a"), ""), Delay + n, AsWritten);
            t.isSearching && t.timer.Idle? && t.searchTerm == t.debouncedSearchTerm
  {
    var u := OnSearchChange(OnSearchChange(s, "a"), "");
    FiresAtDelay(u, AsWritten);
    TicksAdd(u, Delay, n, AsWritten);
    IdleIsStable(Ticks(u, Delay, AsWritten), n, AsWritten);
  }

  /** The component's search state, updated in place by its handlers, with the corrected
      reset of the flag. */
  class SearchBox {
    var searchTerm: string
    var debouncedSearchTerm: string
    var isSearching: bool
    var timer: Timer

    function State(): SearchState
      reads this
    {
      SearchState(searchTerm, debouncedSearchTerm, isSearching, timer)
    }

    ghost predicate Valid()
      reads this
    {
      Settles(State())
    }

    constructor ()
      ensures State() == Initial() && Valid()
    {
      searchTerm := "";
      debouncedSearchTerm := "";
      isSearching := false;
      timer := Rearm("");
    }

    method HandleSearchChange(value: string)
      requires Valid()
      modifies this
      ensures State() == OnSearchChange(old(State()), value) && Valid()
    {
      if value != searchTerm {
        isSearching := true;
        searchTerm := value;
        timer := Rearm(value);
      }
    }

    method ClearSearch()
      requires Valid()
      modifies this
      ensures State() == OnClearSearch(old(State())) && Valid()
    {
      if searchTerm != "" {
        timer := Rearm("");
      }
      searchTerm := "";
      isSearching := false;
    }

    /** One millisecond passes. */
    method TimerTick()
      requires Valid()
      modifies this
      ensures State() == Tick(old(State()), Corrected) && Valid()
    {
      EventsPreserveSettles(State(), "");
      match timer
      case Idle =>
      case Armed(value, remaining) =>
        if remaining > 1 {
          timer := Armed(value, remaining - 1);
        } else {
          debouncedSearchTerm := value;
          timer := Idle;
          isSearching := false;
        }
    }
  }
}
