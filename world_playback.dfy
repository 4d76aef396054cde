/** The world map's year slider and play/pause button (js/main.js,
    lines 139-177). The page keeps a global `year`, the text of the
    annotation paragraph, a flag `isPlaying`, and, while an interval timer
    is running, that timer's own counter `currentYear`. */
module WorldPlayback {
  import opened Common
  import opened WorldData
  import opened WorldAnnotations

  /** The playback state. `counter` is `Some(currentYear)` while an interval
      timer is running and `None` once it has been cleared. */
  datatype Playback = Playback(year: int, note: string, isPlaying: bool, counter: Option<int>)

  /** What can happen to the page after it has loaded. */
  datatype Event = Click | Tick | Slide(value: int)

  /** The text `updateAnnotation` shows for a displayed year, whose string
      is `year.toString()`. The step functions below take this choice as their
      parameter `noteOf`; the page's controller passes `NoteFor`. */
  function NoteFor(year: int): string
  {
    Annotation(NumberString(year))
  }

  /** The note shown for a four-digit year: its annotation when the year is
      annotated, and empty text otherwise. */
  lemma NoteForYear(y: int)
    requires 1000 <= y <= 9999
    ensures NoteFor(y) == if y in AnnotatedYears then NoteText(y) else ""
  {
    AnnotationOfYear(y);
  }

  /** The state right after loading: year "1961", its note shown, not playing. */
  function Initial(): (s: Playback)
    ensures s.year == FirstYear && !s.isPlaying && s.counter == None
    ensures s.note == NoteFor(FirstYear)
  {
    Playback(FirstYear, NoteFor(FirstYear), false, None)
  }

  /** The button handler: start a timer counting from the displayed year, or
      clear the running timer. */
  function AfterClick(s: Playback): Playback
  {
    if !s.isPlaying then s.(isPlaying := true, counter := Some(s.year))
    else s.(isPlaying := false, counter := None)
  }

  /** One firing of the interval callback. */
  function AfterTick(s: Playback, noteOf: int -> string): Playback
    requires s.counter.Some?
  {
    var c := s.counter.value;
    if c <= LastYear then s.(year := c, note := noteOf(c), counter := Some(c + 1))
    else s.(isPlaying := false, counter := None)
  }

  /** The slider's input handler. */
  function AfterSlide(s: Playback, value: int, noteOf: int -> string): Playback
  {
    s.(year := value, note := noteOf(value))
  }

  /** The effect of one event; a tick happens only while a timer runs. */
  function Step(s: Playback, e: Event, noteOf: int -> string): Playback
  {
    match e
    case Click => AfterClick(s)
    case Tick => if s.counter.Some? then AfterTick(s, noteOf) else s
    case Slide(v) => AfterSlide(s, v, noteOf)
  }

  /** The effect of a sequence of events, in order. */
  function Run(s: Playback, events: seq<Event>, noteOf: int -> string): Playback
    decreases |events|
  {
    if |events| == 0 then s else Run(Step(s, events[0], noteOf), events[1..], noteOf)
  }

  /** `n` firings of the timer. */
  function Ticks(s: Playback, n: nat, noteOf: int -> string): Playback
    decreases n
  {
    if n == 0 then s else Ticks(Step(s, Tick, noteOf), n - 1, noteOf)
  }

  /** The years that `n` firings of the timer put on the map, in order. */
  function Shown(s: Playback, n: nat, noteOf: int -> string): seq<int>
    decreases n
  {
    if n == 0 then []
    else (if s.counter.Some? && s.counter.value <= LastYear then [s.counter.value] else [])
         + Shown(Step(s, Tick, noteOf), n - 1, noteOf)
  }

  /** The years `a`, `a + 1`, ..., `b - 1`. */
  function Range(a: int, b: int): (r: seq<int>)
    decreases b - a
    ensures |r| == if a <= b then b - a else 0
    ensures forall i :: 0 <= i < |r| ==> r[i] == a + i
  {
    if b <= a then [] else [a] + Range(a + 1, b)
  }

  /** A running timer and the flag agree, the annotation is the note of the
      displayed year, and the years stay inside the slider's range. */
  predicate Good(s: Playback, noteOf: int -> string)
  {
    && (s.isPlaying <==> s.counter.Some?)
    && s.note == noteOf(s.year)
    && FirstYear <= s.year <= LastYear
    && (s.counter.Some? ==> FirstYear <= s.counter.value <= LastYear + 1)
  }

  /** The slider only offers years of the data range. */
  predicate SliderEvent(e: Event)
  {
    e.Slide? ==> FirstYear <= e.value <= LastYear
  }

  /** The page starts in a good state. */
  lemma InitialIsGood()
    ensures Good(Initial(), NoteFor)
  {
  }

  /** Every event keeps the state good. */
  lemma StepPreservesGood(s: Playback, e: Event, noteOf: int -> string)
    requires Good(s, noteOf) && SliderEvent(e)
    ensures Good(Step(s, e, noteOf), noteOf)
  {
  }

  /** Any sequence of events keeps the state good; in particular the
      displayed year never exceeds 2023 and the annotation always belongs to
      it. */
  lemma {:induction false} RunPreservesGood(s: Playback, events: seq<Event>, noteOf: int -> string)
    requires Good(s, noteOf)
    requires forall i :: 0 <= i < |events| ==> SliderEvent(events[i])
    ensures Good(Run(s, events, noteOf), noteOf)
    ensures Run(s, events, noteOf).year <= LastYear
    decreases |events|
  {
    if |events| > 0 {
      StepPreservesGood(s, events[0], noteOf);
      assert forall i :: 0 <= i < |events[1..]| ==> SliderEvent(events[1..][i]) by {
        forall i | 0 <= i < |events[1..]| ensures SliderEvent(events[1..][i]) {
          assert events[1..][i] == events[i + 1];
        }
      }
      RunPreservesGood(Step(s, events[0], noteOf), events[1..], noteOf);
    }
  }

  /** Pressing play starts a timer at the displayed year and leaves the
      displayed year and its note unchanged. */
  lemma PlayStartsAtYear(s: Playback)
    requires !s.isPlaying
    ensures AfterClick(s).isPlaying && AfterClick(s).counter == Some(s.year)
    ensures AfterClick(s).year == s.year && AfterClick(s).note == s.note
  {
  }

  /** Pressing the button while playing stops the timer and leaves the
      displayed year and its note unchanged. */
  lemma PauseKeepsYear(s: Playback)
    requires s.isPlaying
    ensures !AfterClick(s).isPlaying && AfterClick(s).counter == None
    ensures AfterClick(s).year == s.year && AfterClick(s).note == s.note
  {
  }

  /** Moving the slider does not touch the timer, so while the counter is in
      range the next tick shows the counter's year as if the slider had not
      moved. */
  lemma SlideKeepsCounter(s: Playback, v: int, noteOf: int -> string)
    ensures AfterSlide(s, v, noteOf).counter == s.counter
    ensures AfterSlide(s, v, noteOf).isPlaying == s.isPlaying
    ensures AfterSlide(s, v, noteOf).year == v && AfterSlide(s, v, noteOf).note == noteOf(v)
    ensures s.counter.Some? && s.counter.value <= LastYear ==>
              AfterTick(AfterSlide(s, v, noteOf), noteOf) == AfterTick(s, noteOf)
  {
  }

  /** A tick with the counter at most 2023 shows the counter's year. */
  lemma TickShows(s: Playback, c: int, noteOf: int -> string)
    requires s.counter == Some(c) && c <= LastYear
    ensures Step(s, Tick, noteOf) == Playback(c, noteOf(c), s.isPlaying, Some(c + 1))
  {
  }

  /** While the counter `c` is at most 2023, `n` ticks show `c`, ..., `c + n - 1`
      and leave the timer running at `c + n`. */
  lemma {:induction false} TicksAdvance(s: Playback, c: int, n: nat, noteOf: int -> string)
    requires s.counter == Some(c) && c + n <= LastYear + 1
    ensures Shown(s, n, noteOf) == Range(c, c + n)
    ensures Ticks(s, n, noteOf).counter == Some(c + n)
    ensures Ticks(s, n, noteOf).isPlaying == s.isPlaying
    ensures n > 0 ==> Ticks(s, n, noteOf).year == c + n - 1
    ensures n > 0 ==> Ticks(s, n, noteOf).note == noteOf(c + n - 1)
    decreases n
  {
    if n > 0 {
      var t := Step(s, Tick, noteOf);
      TickShows(s, c, noteOf);
      TicksAdvance(t, c + 1, n - 1, noteOf);
      assert Ticks(s, n, noteOf) == Ticks(t, n - 1, noteOf);
      assert Shown(s, n, noteOf) == [c] + Shown(t, n - 1, noteOf);
      assert Range(c, c + n) == [c] + Range(c + 1, c + n);
      if n == 1 {
        assert Ticks(t, 0, noteOf) == t;
      }
    }
  }

  /** One more tick after `n` ticks. */
  lemma {:induction false} TicksThenOne(s: Playback, n: nat, noteOf: int -> string)
    ensures Ticks(s, n + 1, noteOf) == Step(Ticks(s, n, noteOf), Tick, noteOf)
    decreases n
  {
    if n > 0 {
      TicksThenOne(Step(s, Tick, noteOf), n - 1, noteOf);
    }
  }

  /** The years shown by `n + 1` ticks are those of `n` ticks and then the last. */
  lemma {:induction false} ShownThenOne(s: Playback, n: nat, noteOf: int -> string)
    ensures Shown(s, n + 1, noteOf) == Shown(s, n, noteOf) + Shown(Ticks(s, n, noteOf), 1, noteOf)
    decreases n
  {
    if n > 0 {
      var t := Step(s, Tick, noteOf);
      ShownThenOne(t, n - 1, noteOf);
      var head := if s.counter.Some? && s.counter.value <= LastYear then [s.counter.value] else [];
      assert Shown(s, n + 1, noteOf) == head + Shown(t, n, noteOf);
      assert Shown(s, n, noteOf) == head + Shown(t, n - 1, noteOf);
      assert Ticks(s, n, noteOf) == Ticks(t, n - 1, noteOf);
    }
  }

  /** Pressing play at year `y` and letting the timer run: the ticks show
      `y`, `y + 1`, ..., 2023 (the starting year is shown again first), and
      the tick after that stops playback with 2023 and its note displayed. */
  lemma {:induction false} PlayRunsToEnd(s: Playback, noteOf: int -> string)
    requires !s.isPlaying && s.year <= LastYear
    ensures var p := AfterClick(s);
      && Shown(p, LastYear + 2 - s.year, noteOf) == Range(s.year, LastYear + 1)
      && Ticks(p, LastYear + 1 - s.year, noteOf).isPlaying
      && !Ticks(p, LastYear + 2 - s.year, noteOf).isPlaying
      && Ticks(p, LastYear + 2 - s.year, noteOf).counter == None
      && Ticks(p, LastYear + 2 - s.year, noteOf).year == LastYear
      && Ticks(p, LastYear + 2 - s.year, noteOf).note == noteOf(LastYear)
  {
    var p := AfterClick(s);
    var y := s.year;
    var n: nat := LastYear + 1 - y;
    TicksAdvance(p, y, n, noteOf);
    var q := Ticks(p, n, noteOf);
    TicksThenOne(p, n, noteOf);
    ShownThenOne(p, n, noteOf);
    assert q.counter == Some(LastYear + 1);
    assert Shown(q, 1, noteOf) == [];
  }

  /** From 2020 the ticks show 2020, 2021, 2022 and 2023 and then stop. */
  lemma PlayFrom2020(s: Playback, noteOf: int -> string)
    requires !s.isPlaying && s.year == 2020
    ensures Shown(AfterClick(s), 5, noteOf) == [2020, 2021, 2022, 2023]
    ensures !Ticks(AfterClick(s), 5, noteOf).isPlaying
    ensures Ticks(AfterClick(s), 5, noteOf).year == 2023
  {
    PlayRunsToEnd(s, noteOf);
    assert Range(2020, 2024) == [2020, 2021, 2022, 2023];
  }

  /** Pausing and pressing play again restarts the counter at the displayed
      year, so that year is shown a second time. */
  lemma ResumeRepeatsYear(s: Playback, noteOf: int -> string)
    requires s.isPlaying && s.year <= LastYear
    ensures var r := AfterClick(AfterClick(s));
      r.isPlaying && r.counter == Some(s.year) && Shown(r, 1, noteOf) == [s.year]
  {
  }

  /** The page's playback state as mutable fields, updated in place by the
      event handlers. `noteOf` is `updateAnnotation`'s choice of text, fixed
      to `NoteFor` when the page loads. */
  class PlaybackController {
    var year: int
    var note: string
    var isPlaying: bool
    var counter: Option<int>
    const noteOf: int -> string

    /** The fields as a value. */
    function State(): Playback
      reads this
    {
      Playback(year, note, isPlaying, counter)
    }

    /** Loading the page: `year = "1961"`, then `updateAnnotation(year)`. */
    constructor ()
      ensures noteOf == NoteFor
      ensures State() == Initial()
      ensures Good(State(), noteOf)
    {
      noteOf := NoteFor;
      year := FirstYear;
      isPlaying := false;
      counter := None;
      note := NoteFor(FirstYear);
    }

    /** The slider's input handler: set `year` and show its note. */
    method SlideTo(value: int)
      modifies this
      ensures State() == AfterSlide(old(State()), value, noteOf)
      ensures old(Good(State(), noteOf)) && FirstYear <= value <= LastYear ==> Good(State(), noteOf)
    {
      year := value;
      note := noteOf(year);
    }

    /** The play/pause button's click handler. */
    method Click()
      modifies this
      ensures State() == AfterClick(old(State()))
      ensures old(Good(State(), noteOf)) ==> Good(State(), noteOf)
    {
      if !isPlaying {
        isPlaying := true;
        var currentYear := year;
        counter := Some(currentYear);
      } else {
        counter := None;
        isPlaying := false;
      }
    }

    /** One firing of the interval callback of the running timer. */
    method Tick()
      requires counter.Some?
      modifies this
      ensures State() == AfterTick(old(State()), noteOf)
      ensures old(Good(State(), noteOf)) ==> Good(State(), noteOf)
    {
      var currentYear := counter.value;
      if currentYear <= LastYear {
        year := currentYear;
        note := noteOf(year);
        currentYear := currentYear + 1;
        counter := Some(currentYear);
      } else {
        counter := None;
        isPlaying := false;
      }
    }
  }
}
