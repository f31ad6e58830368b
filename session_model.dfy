/**
 * The state of one `CalmTypingTest` and the transitions its event handlers
 * make, as values. The class in calm_typing_test.dfy performs the same
 * transitions in place and is proved to agree with these functions.
 */
module SessionModel {
  import opened Wrappers
  import Stats

  /** One recorded keystroke: the character due, what was typed, whether it matched, when. */
  datatype Entry = Entry(expected: char, actual: string, correct: bool, timestamp: int)

  /**
   * The fields of `CalmTypingTest` that the typing logic reads and writes.
   * `startTime` is `null` until the first keystroke; `timeLeft` holds the
   * seconds shown by the timer.
   */
  datatype Session = Session(
    text: string,
    currentIndex: nat,
    startTime: Option<int>,
    timeLeft: int,
    errors: nat,
    isRunning: bool,
    typedHistory: seq<Entry>)

  /** An entry is correct exactly when the typed string is the expected character. */
  predicate WellFormed(e: Entry) {
    e.correct == (e.actual == [e.expected])
  }

  /**
   * The session invariant: the cursor stays inside the text, and the history
   * holds one entry per keystroke not yet undone, so it is as long as the
   * correct characters and the mistakes together.
   */
  predicate Valid(s: Session) {
    s.currentIndex <= |s.text|
    && |s.typedHistory| == s.currentIndex + s.errors
    && forall i :: 0 <= i < |s.typedHistory| ==> WellFormed(s.typedHistory[i])
  }

  /** The cursor has reached the end of the text. */
  predicate IsFinished(s: Session) {
    s.currentIndex == |s.text|
  }

  /** The state the constructor sets up: no text, nothing typed, no start time. */
  function Initial(): (s: Session)
    ensures Valid(s)
    ensures |s.text| == 0 && s.currentIndex == 0 && s.errors == 0 && |s.typedHistory| == 0
    ensures s.startTime == None && s.timeLeft == 0 && !s.isRunning
  {
    Session([], 0, None, 0, 0, false, [])
  }

  /** A session whose every field has its starting value is the initial one. */
  lemma IsInitial(s: Session)
    requires |s.text| == 0 && s.currentIndex == 0 && s.errors == 0 && |s.typedHistory| == 0
    requires s.startTime == None && s.timeLeft == 0 && !s.isRunning
    ensures s == Initial()
  {
  }

  /**
   * `setText`: a fresh session over `text`. The start time of an earlier
   * session is left in place.
   */
  function SetText(s: Session, text: string): (t: Session)
    ensures Valid(t)
    ensures t.text == text && t.currentIndex == 0 && t.errors == 0 && t.timeLeft == 0
    ensures !t.isRunning && t.typedHistory == []
    ensures t.startTime == s.startTime
  {
    Session(text, 0, s.startTime, 0, 0, false, [])
  }

  /** `startTest`: the session runs from `now`. */
  function Start(s: Session, now: int): (t: Session)
    ensures t.isRunning && t.startTime == Some(now)
    ensures t.(isRunning := s.isRunning, startTime := s.startTime) == s
  {
    s.(isRunning := true, startTime := Some(now))
  }

  /** `finishTest`: the session stops running; nothing else changes. */
  function Finish(s: Session): (t: Session)
    ensures !t.isRunning && t.(isRunning := s.isRunning) == s
  {
    s.(isRunning := false)
  }

  /** The history entry a keystroke `actual` at the cursor records. */
  function Record(s: Session, actual: string, now: int): (e: Entry)
    requires s.currentIndex < |s.text|
    ensures WellFormed(e) && e.expected == s.text[s.currentIndex] && e.actual == actual
    ensures e.timestamp == now
  {
    var expected := s.text[s.currentIndex];
    Entry(expected, actual, actual == [expected], now)
  }

  /**
   * `handleInput` for an input event carrying `data` (`null` for edits that
   * insert nothing) at time `now`.
   */
  function Keystroke(s: Session, data: Option<string>, now: int): (t: Session)
    ensures t.text == s.text && t.timeLeft == s.timeLeft
    ensures t.startTime == (if s.isRunning then s.startTime else Some(now))
    ensures data == None ==>
      t.isRunning && t.currentIndex == s.currentIndex && t.errors == s.errors
      && t.typedHistory == s.typedHistory
    ensures data != None && |s.text| <= s.currentIndex ==>
      !t.isRunning && t.currentIndex == s.currentIndex && t.errors == s.errors
      && t.typedHistory == s.typedHistory
    ensures data != None && s.currentIndex < |s.text| ==>
      t.isRunning
      && t.typedHistory == s.typedHistory + [Record(s, data.value, now)]
      && (data.value == [s.text[s.currentIndex]] ==>
            t.currentIndex == s.currentIndex + 1 && t.errors == s.errors)
      && (data.value != [s.text[s.currentIndex]] ==>
            t.currentIndex == s.currentIndex && t.errors == s.errors + 1)
    ensures data != None && s.currentIndex < |s.text| && |data.value| != 1 ==>
      t.currentIndex == s.currentIndex && t.errors == s.errors + 1
    ensures s.errors <= t.errors
    ensures Valid(s) ==> Valid(t)
  {
    var s1 := if s.isRunning then s else Start(s, now);
    match data
    case None => s1
    case Some(input) =>
      if |s1.text| <= s1.currentIndex then Finish(s1)
      else
        var entry := Record(s1, input, now);
        if entry.correct then
          s1.(currentIndex := s1.currentIndex + 1, typedHistory := s1.typedHistory + [entry])
        else
          s1.(errors := s1.errors + 1, typedHistory := s1.typedHistory + [entry])
  }

  /**
   * `handleBackspace`: step the cursor back one character and drop the last
   * history entry; the mistakes already counted stay counted.
   */
  function Backspace(s: Session): (t: Session)
    ensures s.currentIndex == 0 ==> t == s
    ensures 0 < s.currentIndex ==>
      t.currentIndex == s.currentIndex - 1
      && t.(currentIndex := s.currentIndex, typedHistory := s.typedHistory) == s
    ensures Valid(s) && 0 < s.currentIndex ==>
      t.typedHistory == s.typedHistory[..|s.typedHistory| - 1]
    ensures t.errors == s.errors
    ensures Valid(s) ==> Valid(t)
  {
    if s.currentIndex == 0 then s
    else
      var history := if |s.typedHistory| > 0 then s.typedHistory[..|s.typedHistory| - 1] else s.typedHistory;
      s.(currentIndex := s.currentIndex - 1, typedHistory := history)
  }

  /** The timer tick: whole seconds since the start into `timeLeft`. */
  function Tick(s: Session, now: int): (t: Session)
    requires s.startTime.Some?
    ensures 1000 * t.timeLeft <= now - s.startTime.value < 1000 * (t.timeLeft + 1)
    ensures t.(timeLeft := s.timeLeft) == s
  {
    s.(timeLeft := Stats.ElapsedSeconds(s.startTime.value, now))
  }

  /** The events that drive a session between two calls of `setText`. */
  datatype Event = Input(data: Option<string>, now: int) | Erase

  function Apply(s: Session, e: Event): Session {
    match e
    case Input(data, now) => Keystroke(s, data, now)
    case Erase => Backspace(s)
  }

  /** The session after the events `events`, in order. */
  function Run(s: Session, events: seq<Event>): Session
    decreases |events|
  {
    if events == [] then s else Run(Apply(s, events[0]), events[1..])
  }

  /**
   * Over any sequence of keystrokes and backspaces the invariant holds, the
   * text stays the same, and the mistake count never goes down.
   */
  lemma {:induction false} RunKeepsInvariant(s: Session, events: seq<Event>)
    requires Valid(s)
    ensures Valid(Run(s, events))
    ensures Run(s, events).text == s.text
    ensures s.errors <= Run(s, events).errors
    decreases |events|
  {
    if events != [] {
      RunKeepsInvariant(Apply(s, events[0]), events[1..]);
    }
  }

  /** Keystrokes alone never move the cursor backwards. */
  lemma {:induction false} KeystrokesNeverRewind(s: Session, events: seq<Event>)
    requires forall i :: 0 <= i < |events| ==> events[i].Input?
    ensures s.currentIndex <= Run(s, events).currentIndex
    decreases |events|
  {
    if events != [] {
      KeystrokesNeverRewind(Apply(s, events[0]), events[1..]);
    }
  }

  /** Once the cursor is at the end, no keystroke moves it or records anything. */
  lemma {:induction false} FinishedStaysFinished(s: Session, events: seq<Event>)
    requires IsFinished(s)
    requires forall i :: 0 <= i < |events| ==> events[i].Input?
    ensures IsFinished(Run(s, events))
    ensures Run(s, events).typedHistory == s.typedHistory
    ensures Run(s, events).errors == s.errors
    decreases |events|
  {
    if events != [] {
      FinishedStaysFinished(Apply(s, events[0]), events[1..]);
    }
  }

  /**
   * Backspace followed by typing the character just stepped back over puts
   * the cursor and the mistake count back where they were.
   */
  lemma BackspaceThenRetype(s: Session, now: int)
    requires Valid(s) && 0 < s.currentIndex
    ensures var t := Keystroke(Backspace(s), Some([s.text[s.currentIndex - 1]]), now);
      t.currentIndex == s.currentIndex && t.errors == s.errors
      && |t.typedHistory| == |s.typedHistory|
  {
  }

  /** A backspace at the end of the text leaves the finished position again. */
  lemma BackspaceLeavesEnd(s: Session)
    requires Valid(s) && IsFinished(s) && 0 < |s.text|
    ensures !IsFinished(Backspace(s))
  {
  }

  /**
   * Typing `c`, `x`, `a`, `t` against "cat": three characters advance, one
   * mistake is counted, accuracy is 50%, and the session is still running
   * until one more input arrives, which stops it and records nothing.
   */
  lemma CatScenario(previous: Session, t0: int)
    ensures var typed := Run(SetText(previous, "cat"),
                             [Input(Some("c"), t0), Input(Some("x"), t0 + 100),
                              Input(Some("a"), t0 + 200), Input(Some("t"), t0 + 300)]);
      typed.currentIndex == 3 && typed.errors == 1 && |typed.typedHistory| == 4
      && IsFinished(typed) && typed.isRunning && typed.startTime == Some(t0)
      && Stats.Accuracy(typed.currentIndex, typed.errors) == 50
      && var after := Keystroke(typed, Some("!"), t0 + 400);
         !after.isRunning && after.typedHistory == typed.typedHistory
  {
    var s := SetText(previous, "cat");
    CatRun(s, t0);
    CatKeystrokes(s, t0);
    Stats.AccuracyExample();
  }

  /** The four keystrokes as a run of events. */
  lemma CatRun(s: Session, t0: int)
    ensures Run(s, [Input(Some("c"), t0), Input(Some("x"), t0 + 100),
                    Input(Some("a"), t0 + 200), Input(Some("t"), t0 + 300)])
         == Keystroke(Keystroke(Keystroke(Keystroke(s, Some("c"), t0), Some("x"), t0 + 100),
                                Some("a"), t0 + 200), Some("t"), t0 + 300)
  {
    var e1, e2, e3, e4 := Input(Some("c"), t0), Input(Some("x"), t0 + 100), Input(Some("a"), t0 + 200), Input(Some("t"), t0 + 300);
    var s1 := Apply(s, e1);
    var s2 := Apply(s1, e2);
    var s3 := Apply(s2, e3);
    RunStep(s, e1, [e2, e3, e4]);
    RunStep(s1, e2, [e3, e4]);
    RunStep(s2, e3, [e4]);
    RunStep(s3, e4, []);
    assert [e1, e2, e3, e4] == [e1] + [e2, e3, e4];
    assert [e2, e3, e4] == [e2] + [e3, e4];
    assert [e3, e4] == [e3] + [e4];
    assert [e4] == [e4] + [];
  }

  lemma CatKeystrokes(s: Session, t0: int)
    requires s.text == "cat" && s.currentIndex == 0 && s.errors == 0 && !s.isRunning
    requires |s.typedHistory| == 0
    ensures var s4 := Keystroke(Keystroke(Keystroke(Keystroke(s, Some("c"), t0), Some("x"), t0 + 100),
                                          Some("a"), t0 + 200), Some("t"), t0 + 300);
      s4.currentIndex == 3 && s4.errors == 1 && |s4.typedHistory| == 4 && s4.text == "cat"
      && s4.isRunning && s4.startTime == Some(t0)
  {
    assert "cat"[0] == 'c' && "cat"[1] == 'a' && "cat"[2] == 't';
    assert "c" == ['c'] && "x" == ['x'] && "a" == ['a'] && "t" == ['t'];
  }

  lemma RunStep(s: Session, e: Event, rest: seq<Event>)
    ensures Run(s, [e] + rest) == Run(Apply(s, e), rest)
  {
    assert ([e] + rest)[1..] == rest;
  }
}
