/**
 * The `CalmTypingTest` object: its session fields and the handlers that
 * update them in place. `Date.now()` is the parameter `now`; the DOM,
 * timers and file loading are not modelled. Each handler is proved to leave
 * the object in the state the matching SessionModel function describes, so
 * every property proved there holds of the object.
 */
module CalmTyping {
  import opened Wrappers
  import SessionModel
  import Stats
  import Display

  class CalmTypingTest {
    var text: string
    var currentIndex: nat
    var startTime: Option<int>
    var timeLeft: int
    var errors: nat
    var isRunning: bool
    var typedHistory: seq<SessionModel.Entry>

    /** The fields as one session value. */
    function State(): SessionModel.Session
      reads this
    {
      SessionModel.Session(text, currentIndex, startTime, timeLeft, errors, isRunning, typedHistory)
    }

    /** The object invariant: that of the session its fields make up. */
    predicate Valid()
      reads this
    {
      SessionModel.Valid(State())
    }

    /** The fields start as in `SessionModel.Initial`. */
    constructor ()
      ensures Valid()
      ensures State() == SessionModel.Initial()
    {
      text := [];
      currentIndex := 0;
      startTime := None;
      timeLeft := 0;
      errors := 0;
      isRunning := false;
      typedHistory := [];
      new;
      SessionModel.IsInitial(State());
    }

    /** `setText`: start over on `newText`, keeping the old start time. */
    method SetText(newText: string)
      modifies this
      ensures Valid()
      ensures State() == SessionModel.SetText(old(State()), newText)
    {
      text := newText;
      currentIndex := 0;
      errors := 0;
      timeLeft := 0;
      isRunning := false;
      typedHistory := [];
    }

    /** `restartTest`: start over on the same text. */
    method RestartTest()
      modifies this
      ensures Valid()
      ensures State() == SessionModel.SetText(old(State()), old(text))
    {
      SetText(text);
    }

    /** `startTest`. */
    method StartTest(now: int)
      modifies this
      ensures old(Valid()) ==> Valid()
      ensures State() == SessionModel.Start(old(State()), now)
    {
      isRunning := true;
      startTime := Some(now);
    }

    /** `finishTest`. */
    method FinishTest()
      modifies this
      ensures old(Valid()) ==> Valid()
      ensures State() == SessionModel.Finish(old(State()))
    {
      isRunning := false;
    }

    /** `handleBackspace`. */
    method HandleBackspace()
      requires Valid()
      modifies this
      ensures Valid()
      ensures State() == SessionModel.Backspace(old(State()))
    {
      if currentIndex > 0 {
        currentIndex := currentIndex - 1;
        if |typedHistory| > 0 {
          typedHistory := typedHistory[..|typedHistory| - 1];
        }
      }
    }

    /** `handleInput` for an input event whose `data` is the typed string, or `null`. */
    method HandleInput(data: Option<string>, now: int)
      requires Valid()
      modifies this
      ensures Valid()
      ensures State() == SessionModel.Keystroke(old(State()), data, now)
    {
      if !isRunning {
        StartTest(now);
      }
      if data == None {
        return;
      }
      var input := data.value;
      if currentIndex >= |text| {
        FinishTest();
        return;
      }
      var expectedChar := text[currentIndex];
      typedHistory := typedHistory + [SessionModel.Entry(expectedChar, input, input == [expectedChar], now)];
      if input == [expectedChar] {
        currentIndex := currentIndex + 1;
      } else {
        errors := errors + 1;
      }
    }

    /** One tick of the interval `startTimer` sets up: the seconds shown. */
    method TimerTick(now: int)
      requires startTime.Some?
      modifies this
      ensures old(Valid()) ==> Valid()
      ensures State() == SessionModel.Tick(old(State()), now)
    {
      timeLeft := Stats.ElapsedSeconds(startTime.value, now);
    }

    /** What `updateStats` shows at time `now`, or nothing before a start. */
    function CurrentStats(now: int): (r: Option<Stats.Stats>)
      reads this
      ensures r.Some? ==> 0 <= r.value.accuracy <= 100 && 0 <= r.value.wpm
      ensures r.None? <==> startTime == None || startTime == Some(0)
      ensures r.Some? ==> r.value == Stats.Stats(Stats.WordsPerMinute(currentIndex, now - startTime.value),
                                                 Stats.Accuracy(currentIndex, errors))
    {
      Stats.UpdateStats(startTime, now, currentIndex, errors)
    }

    /** What `updateDisplay` shows: typed, current and remaining text. */
    function CurrentDisplay(): (p: Display.Parts)
      reads this
      requires Valid()
      ensures p.typed + p.current + p.remaining == text
      ensures p.typed == text[..currentIndex]
      ensures p.current == [] <==> currentIndex == |text|
      ensures currentIndex < |text| ==>
        p.current == [text[currentIndex]] && p.remaining == text[currentIndex + 1..]
      ensures currentIndex == |text| ==> p.remaining == []
    {
      Display.Split(text, currentIndex)
    }
  }
}
