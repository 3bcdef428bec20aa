/**
 * The debounced search of the filter component. Its effect reads the search
 * text and the committed filters; when the trimmed text differs from the
 * committed search term it sets a 300-unit timeout that emits
 * `{searchTerm: term}`.
 *
 * Time is a logical clock. The search box reporting its text is a
 * `Keystroke`, which re-runs the effect when the text changed; time reaching
 * a moment is `Advance`.
 *
 * The effect's intended cleanup is to cancel the previous run's timeout when
 * it re-runs (`EffectRun`, `Replay`). As written, the effect returns its
 * cleanup function instead of registering it. An Angular effect ignores its
 * callback's return value, so no timeout is ever cancelled
 * (`EffectRunAsWritten`, `ReplayAsWritten`).
 */
module Debounce {
  import opened Wrappers
  import opened TextTrim

  const QuietPeriod: int := 300

  /** A pending timeout that emits `{searchTerm: term}` once the clock reaches `deadline`. */
  datatype Timer = Timer(term: string, deadline: int)

  /**
   * The search box reports `text` at time `at`. `search.set` notifies only
   * when the text differs from the current one, so only then does the
   * effect re-run.
   */
  datatype Keystroke = Keystroke(text: string, at: int)

  /**
   * One run of the effect at `now`, its cleanup having cancelled the
   * previous run's timeout: nothing when the trimmed search already is the
   * committed term, otherwise a timeout for the trimmed text.
   */
  function EffectRun(search: string, committed: string, now: int): (r: Option<Timer>)
    ensures r.None? <==> Trim(search) == committed
    ensures r.Some? ==> r.value.term == Trim(search) && r.value.deadline == now + QuietPeriod
  {
    var term := Trim(search);
    if term == committed then None else Some(Timer(term, now + QuietPeriod))
  }

  /** The clock reaches `now`: a timeout whose deadline has come fires once and is gone; any other stays. */
  function Advance(pending: Option<Timer>, now: int): (r: (Option<Timer>, seq<string>))
    ensures r.1 == [] <==> NotDueBy(pending, now)
    ensures r.1 != [] ==> r.0 == None && r.1 == [pending.value.term]
    ensures r.1 == [] ==> r.0 == pending
  {
    if pending.Some? && pending.value.deadline <= now then (None, [pending.value.term])
    else (pending, [])
  }

  /** Time reaches the keystroke; the effect re-runs only when the text changed. */
  function Step(pending: Option<Timer>, search: string, committed: string, k: Keystroke): (r: (Option<Timer>, seq<string>)) {
    var (p0, out) := Advance(pending, k.at);
    if k.text == search then (p0, out) else (EffectRun(k.text, committed, k.at), out)
  }

  /**
   * Keystrokes against a fixed committed term, starting from search text
   * `search`: the timeout left pending, and what was emitted.
   */
  function Replay(pending: Option<Timer>, search: string, committed: string, ks: seq<Keystroke>): (r: (Option<Timer>, seq<string>))
    decreases |ks|
  {
    if ks == [] then (pending, [])
    else
      var (p1, o1) := Step(pending, search, committed, ks[0]);
      var (p2, o2) := Replay(p1, ks[0].text, committed, ks[1..]);
      (p2, o1 + o2)
  }

  /**
   * Keystrokes in time order, each changing the text of the one before
   * (the first changes `search`) and each within the quiet period of the
   * one before.
   */
  predicate IsBurst(search: string, ks: seq<Keystroke>) {
    && |ks| > 0
    && ks[0].text != search
    && forall i :: 0 <= i < |ks| - 1 ==>
         ks[i].at <= ks[i + 1].at < ks[i].at + QuietPeriod && ks[i].text != ks[i + 1].text
  }

  predicate NotDueBy(pending: Option<Timer>, t: int) {
    pending.None? || pending.value.deadline > t
  }

  /** If the trimmed text already is the committed term, nothing is scheduled, so nothing is ever emitted. */
  lemma CommittedTermSchedulesNothing(search: string, committed: string, now: int, later: int)
    requires Trim(search) == committed
    ensures EffectRun(search, committed, now) == None
    ensures Advance(EffectRun(search, committed, now), later) == (None, [])
  {
  }

  /**
   * During a burst nothing fires: each keystroke cancels the timeout of the one
   * before it while that is still pending, and only the last keystroke's
   * timeout remains.
   */
  lemma {:induction false} BurstStaysQuiet(pending: Option<Timer>, search: string, committed: string, ks: seq<Keystroke>)
    requires IsBurst(search, ks) && NotDueBy(pending, ks[0].at)
    ensures Replay(pending, search, committed, ks)
            == (EffectRun(ks[|ks| - 1].text, committed, ks[|ks| - 1].at), [])
    decreases |ks|
  {
    var p1 := EffectRun(ks[0].text, committed, ks[0].at);
    assert Step(pending, search, committed, ks[0]) == (p1, []);
    var rest := Replay(p1, ks[0].text, committed, ks[1..]);
    assert Replay(pending, search, committed, ks) == (rest.0, [] + rest.1);
    if |ks| == 1 {
      assert ks[1..] == [];
      assert rest == (p1, []);
      assert [] + rest.1 == [];
    } else {
      assert IsBurst(ks[0].text, ks[1..]) by {
        forall i | 0 <= i < |ks[1..]| - 1
          ensures ks[1..][i].at <= ks[1..][i + 1].at < ks[1..][i].at + QuietPeriod
          ensures ks[1..][i].text != ks[1..][i + 1].text
        {
          assert ks[1..][i] == ks[i + 1] && ks[1..][i + 1] == ks[i + 2];
        }
      }
      assert NotDueBy(p1, ks[1].at);
      BurstStaysQuiet(p1, ks[0].text, committed, ks[1..]);
    }
  }

  /**
   * A burst of keystrokes emits exactly one patch, for the last trimmed text,
   * and only when the quiet period after the last keystroke has passed;
   * nothing at all when that text is the committed term.
   */
  lemma BurstEmitsOnlyFinal(search: string, committed: string, ks: seq<Keystroke>, t: int)
    requires IsBurst(search, ks)
    ensures var (pending, out) := Replay(None, search, committed, ks);
            var last := ks[|ks| - 1];
            && out == []
            && (t < last.at + QuietPeriod ==> Advance(pending, t).1 == [])
            && (t >= last.at + QuietPeriod ==>
                  Advance(pending, t).1 == if Trim(last.text) == committed then [] else [Trim(last.text)])
  {
    BurstStaysQuiet(None, search, committed, ks);
  }

  /** A keystroke that leaves the text as it is does not re-run the effect: a pending timeout keeps its deadline. */
  lemma UnchangedTextKeepsTimeout(pending: Option<Timer>, search: string, committed: string, k: Keystroke)
    requires k.text == search
    ensures Step(pending, search, committed, k) == Advance(pending, k.at)
  {
  }

  /**
   * The box reports "ab" at 100 and again at 200: the second report changes
   * nothing, so "ab" is emitted at 400, 300 units after the first.
   */
  lemma RepeatedTextEmitsOnSchedule()
    ensures var (pending, out) := Replay(None, "a", "", [Keystroke("ab", 100), Keystroke("ab", 200)]);
            out == [] && Advance(pending, 400).1 == ["ab"]
  {
    TrimmedIsFixed("ab");
    var ks := [Keystroke("ab", 100), Keystroke("ab", 200)];
    var ab := Timer("ab", 400);
    assert Step(None, "a", "", ks[0]) == (Some(ab), []);
    assert Step(Some(ab), "ab", "", ks[1]) == (Some(ab), []);
    assert ks[1..] == [Keystroke("ab", 200)] && ks[1..][1..] == [];
    assert Replay(Some(ab), "ab", "", []) == (Some(ab), []);
    var none: seq<string> := [];
    assert none + none == none;
    assert Replay(Some(ab), "ab", "", ks[1..]) == (Some(ab), []);
    assert Replay(None, "a", "", ks) == (Some(ab), []);
  }

  /** As written: a re-run adds its timeout and cancels none. */
  function EffectRunAsWritten(pending: seq<Timer>, search: string, committed: string, now: int): (r: seq<Timer>)
    ensures |pending| <= |r| <= |pending| + 1 && r[..|pending|] == pending
    ensures |r| == |pending| + 1 <==> Trim(search) != committed
    ensures |r| == |pending| + 1 ==> r[|pending|] == Timer(Trim(search), now + QuietPeriod)
  {
    var term := Trim(search);
    if term == committed then pending else pending + [Timer(term, now + QuietPeriod)]
  }

  /**
   * As written: the clock reaches `now` and every timeout whose deadline has
   * come fires; the others stay pending. Returns the timeouts left and the
   * timeouts fired, each in the order set. With a clock that only moves
   * forward, that order is deadline order.
   */
  function AdvanceAll(pending: seq<Timer>, now: int): (r: (seq<Timer>, seq<Timer>))
    ensures multiset(r.0) + multiset(r.1) == multiset(pending)
    ensures forall t :: t in r.0 ==> t.deadline > now
    ensures forall t :: t in r.1 ==> t.deadline <= now
  {
    if pending == [] then ([], [])
    else
      var (rest, fired) := AdvanceAll(pending[1..], now);
      assert pending == [pending[0]] + pending[1..];
      if pending[0].deadline <= now then (rest, [pending[0]] + fired)
      else ([pending[0]] + rest, fired)
  }

  /** The terms that fired timeouts emit, in firing order. */
  function Terms(ts: seq<Timer>): (r: seq<string>)
    ensures |r| == |ts| && forall i :: 0 <= i < |ts| ==> r[i] == ts[i].term
  {
    if ts == [] then [] else [ts[0].term] + Terms(ts[1..])
  }

  /**
   * The timeout keystroke `k` sets when the search text was `search`: one
   * when the text changed and its trimmed form is not the committed term.
   */
  function SetBy(search: string, committed: string, k: Keystroke): (r: seq<Timer>)
    ensures |r| <= 1
    ensures r != [] <==> k.text != search && Trim(k.text) != committed
    ensures r != [] ==> r == [Timer(Trim(k.text), k.at + QuietPeriod)]
  {
    if k.text != search && Trim(k.text) != committed then [Timer(Trim(k.text), k.at + QuietPeriod)] else []
  }

  /** Every timeout the keystrokes set, starting from search text `search`, in order. */
  function SetTimers(search: string, committed: string, ks: seq<Keystroke>): (r: seq<Timer>)
    ensures |r| <= |ks|
    decreases |ks|
  {
    if ks == [] then [] else SetBy(search, committed, ks[0]) + SetTimers(ks[0].text, committed, ks[1..])
  }

  /** As written, one keystroke: the timeouts that fire, then the effect's re-run when the text changed. */
  function StepAsWritten(pending: seq<Timer>, search: string, committed: string, k: Keystroke): (r: (seq<Timer>, seq<Timer>)) {
    var (p1, fired) := AdvanceAll(pending, k.at);
    if k.text == search then (p1, fired) else (EffectRunAsWritten(p1, k.text, committed, k.at), fired)
  }

  /** A keystroke, as written, loses no timeout: each one pending before, or set by it, stays or fires. */
  lemma StepAsWrittenKeepsAll(pending: seq<Timer>, search: string, committed: string, k: Keystroke)
    ensures var r := StepAsWritten(pending, search, committed, k);
            multiset(r.0) + multiset(r.1) == multiset(pending) + multiset(SetBy(search, committed, k))
  {
    var p1 := AdvanceAll(pending, k.at).0;
    if k.text != search {
      assert EffectRunAsWritten(p1, k.text, committed, k.at) == p1 + SetBy(search, committed, k);
    }
  }

  /**
   * As written, from search text `search`: no timeout is ever cancelled, so
   * the timeouts left pending together with those fired are exactly the
   * ones pending before together with those the keystrokes set.
   */
  function ReplayAsWritten(pending: seq<Timer>, search: string, committed: string, ks: seq<Keystroke>): (r: (seq<Timer>, seq<Timer>))
    ensures multiset(r.0) + multiset(r.1) == multiset(pending) + multiset(SetTimers(search, committed, ks))
    decreases |ks|
  {
    if ks == [] then (pending, [])
    else
      var (p1, f1) := StepAsWritten(pending, search, committed, ks[0]);
      var (p2, f2) := ReplayAsWritten(p1, ks[0].text, committed, ks[1..]);
      StepAsWrittenKeepsAll(pending, search, committed, ks[0]);
      calc {
        multiset(p2) + multiset(f1 + f2);
        multiset(p2) + multiset(f2) + multiset(f1);
        multiset(p1) + multiset(SetTimers(ks[0].text, committed, ks[1..])) + multiset(f1);
        multiset(pending) + multiset(SetBy(search, committed, ks[0])) + multiset(SetTimers(ks[0].text, committed, ks[1..]));
        multiset(pending) + multiset(SetTimers(search, committed, ks));
      }
      (p2, f1 + f2)
  }

  /** As written, "ab" typed at 100 while the timeout for "a" is pending keeps that timeout and adds its own. */
  lemma AsWrittenSecondKeystroke()
    ensures ReplayAsWritten([Timer("a", 300)], "a", "", [Keystroke("ab", 100)])
            == ([Timer("a", 300), Timer("ab", 400)], [])
  {
    TrimmedIsFixed("ab");
    var a, ab := Timer("a", 300), Timer("ab", 400);
    var k := Keystroke("ab", 100);
    assert [k][1..] == [] && [a][1..] == [];
    assert AdvanceAll([], 100) == ([], []);
    assert [a] + [] == [a];
    assert AdvanceAll([a], 100) == ([a], []);
    assert EffectRunAsWritten([a], "ab", "", 100) == [a, ab];
    assert StepAsWritten([a], "a", "", k) == ([a, ab], []);
    assert ReplayAsWritten([a, ab], "ab", "", []) == ([a, ab], []);
    var none: seq<Timer> := [];
    assert none + none == none;
  }

  /** As written, typing "a" at 0 and "ab" at 100 leaves both timeouts pending. */
  lemma AsWrittenKeepsBoth()
    ensures ReplayAsWritten([], "", "", [Keystroke("a", 0), Keystroke("ab", 100)])
            == ([Timer("a", 300), Timer("ab", 400)], [])
  {
    TrimmedIsFixed("a");
    AsWrittenSecondKeystroke();
    var ks := [Keystroke("a", 0), Keystroke("ab", 100)];
    var a := Timer("a", 300);
    assert ks[1..] == [Keystroke("ab", 100)];
    assert AdvanceAll([], 0) == ([], []);
    assert EffectRunAsWritten([], "a", "", 0) == [a];
    assert StepAsWritten([], "", "", ks[0]) == ([a], []);
    var none: seq<Timer> := [];
    assert none + none == none;
  }

  /** Both timeouts are due at 400 and fire in the order set. */
  lemma AsWrittenFiresBoth()
    ensures AdvanceAll([Timer("a", 300), Timer("ab", 400)], 400) == ([], [Timer("a", 300), Timer("ab", 400)])
    ensures Terms([Timer("a", 300), Timer("ab", 400)]) == ["a", "ab"]
  {
    var a, ab := Timer("a", 300), Timer("ab", 400);
    assert [a, ab][1..] == [ab] && [ab][1..] == [];
    assert AdvanceAll([], 400) == ([], []);
    assert [ab] + [] == [ab] && [a] + [ab] == [a, ab];
    assert AdvanceAll([ab], 400) == ([], [ab]);
  }

  /** With the cleanup registered, typing "a" at 0 and "ab" at 100 leaves only the timeout for "ab". */
  lemma CancellingKeepsLast()
    ensures Replay(None, "", "", [Keystroke("a", 0), Keystroke("ab", 100)]) == (Some(Timer("ab", 400)), [])
  {
    TrimmedIsFixed("a");
    TrimmedIsFixed("ab");
    var ks := [Keystroke("a", 0), Keystroke("ab", 100)];
    var ab := Timer("ab", 400);
    assert ks[1..] == [Keystroke("ab", 100)] && ks[1..][1..] == [];
    assert Step(None, "", "", ks[0]) == (Some(Timer("a", 300)), []);
    assert Step(Some(Timer("a", 300)), "a", "", ks[1]) == (Some(ab), []);
    assert Replay(Some(ab), "ab", "", []) == (Some(ab), []);
    var none: seq<string> := [];
    assert none + none == none;
  }

  /**
   * Typing "a" at 0 and "ab" at 100 is a burst, yet as written both terms are
   * emitted once the clock reaches 400; with the cleanup registered only
   * "ab" is.
   */
  lemma AsWrittenBurstEmitsEveryTerm()
    ensures var ks := [Keystroke("a", 0), Keystroke("ab", 100)];
            && IsBurst("", ks)
            && ReplayAsWritten([], "", "", ks).1 == []
            && Terms(AdvanceAll(ReplayAsWritten([], "", "", ks).0, 400).1) == ["a", "ab"]
            && Advance(Replay(None, "", "", ks).0, 400).1 == ["ab"]
  {
    AsWrittenKeepsBoth();
    AsWrittenFiresBoth();
    CancellingKeepsLast();
  }
}
