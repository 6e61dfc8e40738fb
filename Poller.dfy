/**
 * One run of the appointment poller: for each enrollment center in turn,
 * build the scheduler API URL for the next twelve weeks, fetch the slot
 * list, take the first slot with active > 0, and print or tweet one
 * notification for it. The network, the clock and the Twitter client are
 * inputs: the clock reading taken for each location, what the API answers
 * for a URL, and what PostUpdate does with a message.
 */
module Poller {
  import opened Strings
  import opened Calendar
  import opened TimeFormat
  import opened Tweeting

  // ---------------------------------------------------------------------------
  // Constants
  // ---------------------------------------------------------------------------

  /** Length of the search window, in weeks. */
  const DELTA_WEEKS := 12

  datatype Location = Location(name: string, code: nat)

  /** The locations polled, in the order they are checked. */
  const LOCATIONS: seq<Location> := [
    Location("Toronto Enrollment Center", 5027),
    Location("Buffalo-Ft. Erie Enrollment Center", 5022),
    Location("Niagara Falls Enrollment Center", 5161)
  ]

  // The scheduler API URL template
  //   https://ttp.cbp.dhs.gov/schedulerapi/locations/{location}/slots?startTimestamp={start}&endTimestamp={end}
  // split at its placeholders and at the '/' and '&' that end the first two.
  const API_PREFIX := "https://ttp.cbp.dhs.gov/schedulerapi/locations/"
  const API_START_KEY := "slots?startTimestamp="
  const API_END_KEY := "endTimestamp="

  // The notification template "New appointment slot open at {location}: {date}".
  const NOTIF_PREFIX := "New appointment slot open at "
  const NOTIF_SEPARATOR := ": "

  // ---------------------------------------------------------------------------
  // Data
  // ---------------------------------------------------------------------------

  /** One element of the API's JSON list, reduced to the two keys the poller reads. */
  datatype Record = Record(active: int, timestamp: string)

  /** What requests.get(url).json() gives: the slot list, or a ConnectionError. */
  datatype FetchResult = Fetched(results: seq<Record>) | ConnectionError

  /** The observable effects of a run, in order. */
  datatype Action = Fetch(url: string) | Print(message: string) | Post(message: string)

  /** Exceptions that escape a location check and end the process. */
  datatype Failure =
    | TimestampError(timestamp: string)   // ValueError from strptime
    | DateOverflow                        // OverflowError from start + timedelta(weeks=12)
    | TweetFailure(error: TweetError)     // re-raised by tweet()

  /** How a check (or the whole run) ends: normal return, sys.exit, or an uncaught exception. */
  datatype Status = Completed | Exited(code: int) | Crashed(failure: Failure)

  datatype Outcome = Outcome(actions: seq<Action>, status: Status)

  /**
   * Everything a run depends on besides the constants: the --test flag, the
   * value of datetime.now() taken in each location's check, the API's answer
   * per URL, and PostUpdate's outcome per message.
   */
  datatype Inputs = Inputs(
    testMode: bool,
    starts: seq<DateTime>,
    fetch: string -> FetchResult,
    send: string -> SendOutcome)

  /** One valid clock reading per location of locs. */
  predicate WellFormed(inp: Inputs, locs: seq<Location>)
  {
    |inp.starts| == |locs| && forall j :: 0 <= j < |inp.starts| ==> Valid(inp.starts[j])
  }

  // ---------------------------------------------------------------------------
  // URL construction
  // ---------------------------------------------------------------------------

  /** start + timedelta(weeks=DELTA): 84 days later at the same time of day. */
  function WindowEnd(start: DateTime): (end: DateTime)
    requires Valid(start)
    ensures ValidDate(end) && end.hour == start.hour && end.minute == start.minute
    ensures Ordinal(end) == Ordinal(start) + 7 * DELTA_WEEKS
  {
    AddDays(start, 7 * DELTA_WEEKS)
  }

  /** Reads "{start}&endTimestamp={end}" back into the two bounds. */
  function ReadWindow(s: string): Option<(DateTime, DateTime)>
  {
    var q :- SplitAt(s, '&');
    if !(API_END_KEY <= q.1) then None
    else
      var start :- Parse(q.0);
      var end :- Parse(q.1[|API_END_KEY|..]);
      Some((start, end))
  }

  /** Reads "{location}/slots?startTimestamp=..." back into the code and the two bounds. */
  function ReadLocationPath(s: string): Option<(nat, DateTime, DateTime)>
  {
    var p :- SplitAt(s, '/');
    if p.0 == [] || !AllDigits(p.0) || !(API_START_KEY <= p.1) then None
    else
      var w :- ReadWindow(p.1[|API_START_KEY|..]);
      Some((DigitsValue(p.0), w.0, w.1))
  }

  /** Reads a scheduler URL back into its location code, start and end. */
  function ReadUrl(url: string): Option<(nat, DateTime, DateTime)>
  {
    if !(API_PREFIX <= url) then None else ReadLocationPath(url[|API_PREFIX|..])
  }

  function WindowText(start: DateTime, end: DateTime): string
    requires Valid(start) && Valid(end)
  {
    FormatTtp(start) + (['&'] + (API_END_KEY + FormatTtp(end)))
  }

  function LocationPathText(code: nat, start: DateTime, end: DateTime): string
    requires Valid(start) && Valid(end)
  {
    Decimal(code) + (['/'] + (API_START_KEY + WindowText(start, end)))
  }

  /**
   * SCHEDULER_API_URL filled with the location code and the window's bounds
   * in "%Y-%m-%dT%H:%M"; None is the OverflowError of a window ending after
   * year 9999.
   */
  function FetchUrl(code: nat, start: DateTime): (r: Option<string>)
    requires Valid(start)
    ensures r.None? <==> WindowEnd(start).year > MAXYEAR
  {
    var end := WindowEnd(start);
    if end.year > MAXYEAR then None
    else Some(API_PREFIX + LocationPathText(code, start, end))
  }

  lemma ReadWindowText(start: DateTime, end: DateTime)
    requires Valid(start) && Valid(end)
    ensures ReadWindow(WindowText(start, end)) == Some((start, end))
  {
    var t1, t2 := FormatTtp(start), FormatTtp(end);
    var after := API_END_KEY + t2;
    assert WindowText(start, end) == t1 + ['&'] + after;
    FormatTtpHasNoAmpersand(start);
    SplitAtFirst(t1, '&', after);
    assert after[|API_END_KEY|..] == t2;
    FormatTtpRoundTrip(start);
    FormatTtpRoundTrip(end);
  }

  lemma ReadLocationPathText(code: nat, start: DateTime, end: DateTime)
    requires Valid(start) && Valid(end)
    ensures ReadLocationPath(LocationPathText(code, start, end)) == Some((code, start, end))
  {
    ReadWindowText(start, end);
    ReadLocationPathOf(Decimal(code), WindowText(start, end), start, end);
  }

  /** A digit string, '/', the start key and a readable window read back as the code and the window. */
  lemma ReadLocationPathOf(digits: string, window: string, start: DateTime, end: DateTime)
    requires digits != [] && AllDigits(digits)
    requires ReadWindow(window) == Some((start, end))
    ensures ReadLocationPath(digits + (['/'] + (API_START_KEY + window))) == Some((DigitsValue(digits), start, end))
  {
    var after := API_START_KEY + window;
    assert digits + (['/'] + after) == digits + ['/'] + after;
    DigitsHaveNoSlash(digits);
    SplitAtFirst(digits, '/', after);
    assert after[|API_START_KEY|..] == window;
  }

  lemma DigitsHaveNoSlash(s: string)
    requires AllDigits(s)
    ensures '/' !in s
  {
    assert forall i :: 0 <= i < |s| ==> IsDigit(s[i]);
  }

  /** The URL names exactly the location code, the start, and an end 84 days after it. */
  lemma UrlRoundTrip(code: nat, start: DateTime)
    requires Valid(start) && FetchUrl(code, start).Some?
    ensures ReadUrl(FetchUrl(code, start).value) == Some((code, start, WindowEnd(start)))
  {
    var end := WindowEnd(start);
    var url := FetchUrl(code, start).value;
    assert url[|API_PREFIX|..] == LocationPathText(code, start, end);
    ReadLocationPathText(code, start, end);
  }

  /** Twelve weeks on, the window ends on the weekday it starts. */
  lemma WindowEndSameWeekday(start: DateTime)
    requires Valid(start)
    ensures Weekday(WindowEnd(start)) == Weekday(start)
  {
    WholeWeeksKeepResidue(Ordinal(start) + 6, Ordinal(WindowEnd(start)) + 6);
  }

  lemma WholeWeeksKeepResidue(a: int, b: int)
    requires b == a + 7 * DELTA_WEEKS
    ensures b % 7 == a % 7
  {
  }

  // ---------------------------------------------------------------------------
  // Message
  // ---------------------------------------------------------------------------

  /** Reads "{location}: {date}" back into the location name and the date-time. */
  function ReadMessageBody(s: string): Option<(string, DateTime)>
  {
    var p :- SplitAt(s, ':');
    if p.1 == [] || p.1[0] != ' ' then None
    else
      var dt :- ReadMessageTime(p.1[1..]);
      Some((p.0, dt))
  }

  /** Reads a notification back into the location name and the date-time. */
  function ReadMessage(s: string): Option<(string, DateTime)>
  {
    if !(NOTIF_PREFIX <= s) then None else ReadMessageBody(s[|NOTIF_PREFIX|..])
  }

  function MessageBody(name: string, dt: DateTime): string
    requires Valid(dt)
  {
    name + (NOTIF_SEPARATOR + FormatMessageTime(dt))
  }

  /**
   * NOTIF_MESSAGE filled with the location name and the slot's time in
   * MESSAGE_TIME_FORMAT.
   */
  function Message(name: string, dt: DateTime): (s: string)
    requires Valid(dt)
    ensures NOTIF_PREFIX <= s
  {
    NOTIF_PREFIX + MessageBody(name, dt)
  }

  /** The body splits at the first ':' for a name without one, whatever the time text is. */
  lemma ReadMessageBodyOf(name: string, text: string, dt: DateTime)
    requires ':' !in name && ReadMessageTime(text) == Some(dt)
    ensures ReadMessageBody(name + (NOTIF_SEPARATOR + text)) == Some((name, dt))
  {
    var rest := [' '] + text;
    SeparatorSplit(name, text);
    SplitAtFirst(name, ':', rest);
    assert rest[1..] == text;
  }

  lemma SeparatorSplit(name: string, text: string)
    ensures name + (NOTIF_SEPARATOR + text) == name + [':'] + ([' '] + text)
  {
    assert NOTIF_SEPARATOR == [':'] + [' '];
  }

  lemma ReadMessageBodyText(name: string, dt: DateTime)
    requires Valid(dt) && ':' !in name
    ensures ReadMessageBody(MessageBody(name, dt)) == Some((name, dt))
  {
    MessageTimeRoundTrip(dt);
    ReadMessageBodyOf(name, FormatMessageTime(dt), dt);
  }

  /** For a name without ':' the message gives back both the name and the date-time. */
  lemma MessageRoundTrip(name: string, dt: DateTime)
    requires Valid(dt) && ':' !in name
    ensures ReadMessage(Message(name, dt)) == Some((name, dt))
  {
    assert Message(name, dt)[|NOTIF_PREFIX|..] == MessageBody(name, dt);
    ReadMessageBodyText(name, dt);
  }

  lemma LocationNamesHaveNoColon()
    ensures forall j :: 0 <= j < |LOCATIONS| ==> ':' !in LOCATIONS[j].name
  {
    NameHasNoColon0();
    NameHasNoColon1();
    NameHasNoColon2();
  }

  lemma NameHasNoColon0() ensures ':' !in LOCATIONS[0].name {}
  lemma NameHasNoColon1() ensures ':' !in LOCATIONS[1].name {}
  lemma NameHasNoColon2() ensures ':' !in LOCATIONS[2].name {}

  /** The message for a location names that location and the slot's time, recoverably. */
  lemma MessageNamesLocation(j: nat, dt: DateTime)
    requires j < |LOCATIONS| && Valid(dt)
    ensures ReadMessage(Message(LOCATIONS[j].name, dt)) == Some((LOCATIONS[j].name, dt))
  {
    LocationNamesHaveNoColon();
    MessageRoundTrip(LOCATIONS[j].name, dt);
  }

  // ---------------------------------------------------------------------------
  // check_for_openings
  // ---------------------------------------------------------------------------

  /** The position of the first record with active > 0, if there is one. */
  function FirstOpening(results: seq<Record>): (r: Option<nat>)
    ensures r.Some? ==> r.value < |results| && results[r.value].active > 0
    ensures r.Some? ==> forall j :: 0 <= j < r.value ==> results[j].active <= 0
    ensures r.None? <==> forall j :: 0 <= j < |results| ==> results[j].active <= 0
  {
    if results == [] then None
    else if results[0].active > 0 then Some(0)
    else
      match FirstOpening(results[1..])
      case None => None
      case Some(i) => Some(i + 1)
  }

  /** Conversely, an active record preceded only by inactive ones is the first opening. */
  lemma {:induction false} FirstOpeningAt(results: seq<Record>, i: nat)
    requires i < |results| && results[i].active > 0
    requires forall j :: 0 <= j < i ==> results[j].active <= 0
    ensures FirstOpening(results) == Some(i)
  {
    if i > 0 {
      var tail := results[1..];
      assert tail[i - 1] == results[i];
      assert forall j :: 0 <= j < i - 1 ==> tail[j] == results[j + 1];
      FirstOpeningAt(tail, i - 1);
    }
  }

  /** Records after the first opening play no part: any list sharing that prefix has the same first opening. */
  lemma FirstOpeningIgnoresLater(results: seq<Record>, other: seq<Record>, i: nat)
    requires FirstOpening(results) == Some(i)
    requires i < |other| && other[..i + 1] == results[..i + 1]
    ensures FirstOpening(other) == Some(i)
  {
    assert other[i] == other[..i + 1][i] == results[..i + 1][i] == results[i];
    assert forall j :: 0 <= j < i ==> other[j] == other[..i + 1][j] == results[..i + 1][j] == results[j];
    FirstOpeningAt(other, i);
  }

  /** print(message) in test mode, tweet(message) otherwise; a re-raised TwitterError ends the check. */
  function Announce(inp: Inputs, message: string): Outcome
  {
    if inp.testMode then Outcome([Print(message)], Completed)
    else
      match Tweet(inp.send(message))
      case Raised(e) => Outcome([Post(message)], Crashed(TweetFailure(e)))
      case _ => Outcome([Post(message)], Completed)
  }

  /** What follows a successful fetch: the first record with active > 0, if any, announced. */
  function Scan(inp: Inputs, name: string, results: seq<Record>): Outcome
  {
    match FirstOpening(results)
    case None => Outcome([], Completed)
    case Some(i) =>
      match Parse(results[i].timestamp)
      case None => Outcome([], Crashed(TimestampError(results[i].timestamp)))
      case Some(dt) => Announce(inp, Message(name, dt))
  }

  /**
   * The specification of check_for_openings for one location and the clock
   * reading start: build the URL, fetch it once, and scan the answer.
   */
  function Check(inp: Inputs, loc: Location, start: DateTime): Outcome
    requires Valid(start)
  {
    match FetchUrl(loc.code, start)
    case None => Outcome([], Crashed(DateOverflow))
    case Some(url) =>
      match inp.fetch(url)
      case ConnectionError => Outcome([Fetch(url)], Exited(1))
      case Fetched(results) =>
        var rest := Scan(inp, loc.name, results);
        Outcome([Fetch(url)] + rest.actions, rest.status)
  }

  /**
   * The loop of check_for_openings over the fetched records: it stops at the
   * first record with active > 0, parses its timestamp and announces it.
   */
  method ScanForOpening(inp: Inputs, name: string, results: seq<Record>) returns (out: Outcome)
    ensures out == Scan(inp, name, results)
  {
    for i := 0 to |results|
      invariant forall j :: 0 <= j < i ==> results[j].active <= 0
    {
      if results[i].active > 0 {
        FirstOpeningAt(results, i);
        var timestamp := Parse(results[i].timestamp);
        if timestamp.None? {
          return Outcome([], Crashed(TimestampError(results[i].timestamp)));
        }
        var message := Message(name, timestamp.value);
        if inp.testMode {
          return Outcome([Print(message)], Completed);
        }
        var tweeted := Tweet(inp.send(message));
        if tweeted.Raised? {
          return Outcome([Post(message)], Crashed(TweetFailure(tweeted.error)));
        }
        return Outcome([Post(message)], Completed);
      }
    }
    return Outcome([], Completed);
  }

  /**
   * check_for_openings(location_name, location_code, test_mode), with the
   * value of datetime.now() as start: one fetch of the location's URL, then
   * the scan of its records; a ConnectionError is sys.exit(1).
   */
  method CheckForOpenings(inp: Inputs, loc: Location, start: DateTime) returns (out: Outcome)
    requires Valid(start)
    ensures out == Check(inp, loc, start)
  {
    var u := FetchUrl(loc.code, start);
    if u.None? {
      return Outcome([], Crashed(DateOverflow));
    }
    var url := u.value;
    var response := inp.fetch(url);
    if response.ConnectionError? {
      return Outcome([Fetch(url)], Exited(1));
    }
    var rest := ScanForOpening(inp, loc.name, response.results);
    return Outcome([Fetch(url)] + rest.actions, rest.status);
  }

  // ---------------------------------------------------------------------------
  // Views of a trace
  // ---------------------------------------------------------------------------

  /** The messages printed or tweeted, in order. */
  function Messages(actions: seq<Action>): seq<string>
  {
    if actions == [] then []
    else (if actions[0].Fetch? then [] else [actions[0].message]) + Messages(actions[1..])
  }

  /** The URLs fetched, in order. */
  function Fetches(actions: seq<Action>): seq<string>
  {
    if actions == [] then []
    else (if actions[0].Fetch? then [actions[0].url] else []) + Fetches(actions[1..])
  }

  lemma {:induction false} MessagesAppend(a: seq<Action>, b: seq<Action>)
    ensures Messages(a + b) == Messages(a) + Messages(b)
  {
    if a == [] {
      assert a + b == b;
    } else {
      var ab := a + b;
      assert ab[0] == a[0] && ab[1..] == a[1..] + b;
      MessagesAppend(a[1..], b);
    }
  }

  lemma {:induction false} FetchesAppend(a: seq<Action>, b: seq<Action>)
    ensures Fetches(a + b) == Fetches(a) + Fetches(b)
  {
    if a == [] {
      assert a + b == b;
    } else {
      var ab := a + b;
      assert ab[0] == a[0] && ab[1..] == a[1..] + b;
      FetchesAppend(a[1..], b);
    }
  }

  lemma ViewsAppend(a: seq<Action>, b: seq<Action>)
    ensures Messages(a + b) == Messages(a) + Messages(b)
    ensures Fetches(a + b) == Fetches(a) + Fetches(b)
  {
    MessagesAppend(a, b);
    FetchesAppend(a, b);
  }

  /** Test mode's trace with every print turned into a tweet of the same text. */
  function AsTweets(actions: seq<Action>): (r: seq<Action>)
    ensures |r| == |actions|
  {
    if actions == [] then []
    else [if actions[0].Print? then Post(actions[0].message) else actions[0]] + AsTweets(actions[1..])
  }

  lemma {:induction false} AsTweetsAppend(a: seq<Action>, b: seq<Action>)
    ensures AsTweets(a + b) == AsTweets(a) + AsTweets(b)
  {
    if a == [] {
      assert a + b == b;
    } else {
      assert (a + b)[1..] == a[1..] + b;
      AsTweetsAppend(a[1..], b);
    }
  }

  // ---------------------------------------------------------------------------
  // Properties of one check
  // ---------------------------------------------------------------------------

  /** An announcement is one print or one tweet of exactly the message, and no fetch. */
  lemma AnnounceEmitsMessage(inp: Inputs, message: string)
    ensures Messages(Announce(inp, message).actions) == [message]
    ensures Fetches(Announce(inp, message).actions) == []
  {
    var a := Announce(inp, message).actions;
    assert a[1..] == [];
  }

  /** The scan announces exactly the first opening whose timestamp parses, and fetches nothing. */
  lemma ScanEmitsFirstOpening(inp: Inputs, name: string, results: seq<Record>)
    ensures Fetches(Scan(inp, name, results).actions) == []
    ensures var first := FirstOpening(results);
      var dt := if first.Some? then Parse(results[first.value].timestamp) else None;
      Messages(Scan(inp, name, results).actions) == (if dt.Some? then [Message(name, dt.value)] else [])
  {
    match FirstOpening(results)
    case None =>
    case Some(i) =>
      match Parse(results[i].timestamp)
      case None =>
      case Some(dt) => AnnounceEmitsMessage(inp, Message(name, dt));
  }

  /**
   * One check fetches its location's URL once (unless the window overflows)
   * and emits a message exactly when the fetch succeeded, some record has
   * active > 0, and the first such record's timestamp parses; that message
   * is the template filled with the location's name and the rendered time.
   */
  lemma CheckEmitsFirstOpening(inp: Inputs, loc: Location, start: DateTime)
    requires Valid(start)
    ensures var out := Check(inp, loc, start);
      Fetches(out.actions) == (match FetchUrl(loc.code, start) case None => [] case Some(url) => [url])
    ensures var out := Check(inp, loc, start);
      var url := FetchUrl(loc.code, start);
      var response := if url.Some? then inp.fetch(url.value) else ConnectionError;
      var first := if response.Fetched? then FirstOpening(response.results) else None;
      var dt := if first.Some? then Parse(response.results[first.value].timestamp) else None;
      Messages(out.actions) == (if dt.Some? then [Message(loc.name, dt.value)] else [])
  {
    match FetchUrl(loc.code, start)
    case None =>
    case Some(url) =>
      match inp.fetch(url)
      case ConnectionError =>
        assert Check(inp, loc, start).actions[1..] == [];
      case Fetched(results) =>
        var rest := Scan(inp, loc.name, results);
        ScanEmitsFirstOpening(inp, loc.name, results);
        ViewsAppend([Fetch(url)], rest.actions);
        assert [Fetch(url)][1..] == [];
  }

  /**
   * How one check ends: an OverflowError before any fetch when the window
   * passes year 9999, exit status 1 on a ConnectionError, a normal return
   * when no record is active, a ValueError when the first active record's
   * timestamp does not parse, and otherwise a normal return exactly when
   * the message was printed or its tweet did not raise.
   */
  lemma CheckEndsAs(inp: Inputs, loc: Location, start: DateTime)
    requires Valid(start)
    ensures var status := Check(inp, loc, start).status;
      var url := FetchUrl(loc.code, start);
      var response := if url.Some? then inp.fetch(url.value) else ConnectionError;
      var first := if response.Fetched? then FirstOpening(response.results) else None;
      var dt := if first.Some? then Parse(response.results[first.value].timestamp) else None;
      (url.None? ==> status == Crashed(DateOverflow))
      && (url.Some? && response.ConnectionError? ==> status == Exited(1))
      && (response.Fetched? && first.None? ==> status == Completed)
      && (first.Some? && dt.None? ==> status == Crashed(TimestampError(response.results[first.value].timestamp)))
      && (dt.Some? ==> (status.Completed? <==> inp.testMode || !Tweet(inp.send(Message(loc.name, dt.value))).Raised?))
  {
  }

  /** With no record active, a check emits nothing and returns normally. */
  lemma NoOpeningNoMessage(inp: Inputs, loc: Location, start: DateTime)
    requires Valid(start) && FetchUrl(loc.code, start).Some?
    requires inp.fetch(FetchUrl(loc.code, start).value).Fetched?
    requires forall r :: r in inp.fetch(FetchUrl(loc.code, start).value).results ==> r.active <= 0
    ensures Check(inp, loc, start) == Outcome([Fetch(FetchUrl(loc.code, start).value)], Completed)
  {
    var results := inp.fetch(FetchUrl(loc.code, start).value).results;
    assert forall j :: 0 <= j < |results| ==> results[j] in results;
    assert [Fetch(FetchUrl(loc.code, start).value)] + [] == [Fetch(FetchUrl(loc.code, start).value)];
  }

  /** The response's records after the first opening do not influence the check. */
  lemma CheckIgnoresLaterRecords(inp: Inputs, other: string -> FetchResult, loc: Location, start: DateTime, i: nat)
    requires Valid(start) && FetchUrl(loc.code, start).Some?
    requires var url := FetchUrl(loc.code, start).value;
      inp.fetch(url).Fetched? && other(url).Fetched? && FirstOpening(inp.fetch(url).results) == Some(i)
      && i < |other(url).results| && other(url).results[..i + 1] == inp.fetch(url).results[..i + 1]
    ensures Check(inp.(fetch := other), loc, start) == Check(inp, loc, start)
  {
    var url := FetchUrl(loc.code, start).value;
    var a, b := inp.fetch(url).results, other(url).results;
    FirstOpeningIgnoresLater(a, b, i);
    assert b[i] == b[..i + 1][i] == a[..i + 1][i] == a[i];
  }

  /** Test mode changes where the message goes, never its text. */
  lemma TestModeKeepsMessage(inp: Inputs, loc: Location, start: DateTime)
    requires Valid(start)
    ensures Messages(Check(inp.(testMode := true), loc, start).actions)
         == Messages(Check(inp.(testMode := false), loc, start).actions)
    ensures Fetches(Check(inp.(testMode := true), loc, start).actions)
         == Fetches(Check(inp.(testMode := false), loc, start).actions)
  {
    CheckEmitsFirstOpening(inp.(testMode := true), loc, start);
    CheckEmitsFirstOpening(inp.(testMode := false), loc, start);
  }

  /** With a tweet that does not raise, announcing by tweet is announcing by print with the print turned into a tweet. */
  lemma AnnounceAsTweet(inp: Inputs, message: string)
    requires !Tweet(inp.send(message)).Raised?
    ensures Announce(inp.(testMode := false), message).actions == AsTweets(Announce(inp.(testMode := true), message).actions)
    ensures Announce(inp.(testMode := false), message).status == Announce(inp.(testMode := true), message).status
  {
    assert AsTweets([Print(message)]) == [Post(message)];
  }

  lemma ScanAsTweets(inp: Inputs, name: string, results: seq<Record>)
    requires forall m :: !Tweet(inp.send(m)).Raised?
    ensures Scan(inp.(testMode := false), name, results).actions == AsTweets(Scan(inp.(testMode := true), name, results).actions)
    ensures Scan(inp.(testMode := false), name, results).status == Scan(inp.(testMode := true), name, results).status
  {
    match FirstOpening(results)
    case None =>
    case Some(j) =>
      match Parse(results[j].timestamp)
      case None =>
      case Some(dt) =>
        AnnounceAsTweet(inp, Message(name, dt));
  }

  /**
   * When no tweet raises, a tweeting check does what the test-mode check does,
   * with its print replaced by a tweet of the same message, and ends the same way.
   */
  lemma CheckTestModeOnlyChoosesChannel(inp: Inputs, loc: Location, start: DateTime)
    requires Valid(start)
    requires forall m :: !Tweet(inp.send(m)).Raised?
    ensures Check(inp.(testMode := false), loc, start).actions == AsTweets(Check(inp.(testMode := true), loc, start).actions)
    ensures Check(inp.(testMode := false), loc, start).status == Check(inp.(testMode := true), loc, start).status
  {
    match FetchUrl(loc.code, start)
    case None =>
    case Some(url) =>
      match inp.fetch(url)
      case ConnectionError =>
        assert AsTweets([Fetch(url)]) == [Fetch(url)];
      case Fetched(results) =>
        var rest := Scan(inp.(testMode := true), loc.name, results);
        ScanAsTweets(inp, loc.name, results);
        AsTweetsAppend([Fetch(url)], rest.actions);
        assert AsTweets([Fetch(url)]) == [Fetch(url)];
  }

  // ---------------------------------------------------------------------------
  // Running checks one after another
  // ---------------------------------------------------------------------------

  /**
   * The checks' outcomes run in order: each check's actions are kept, and the
   * first check that does not return normally ends the run with its status.
   */
  function Chain(outs: seq<Outcome>): Outcome
  {
    if outs == [] then Outcome([], Completed)
    else if outs[0].status.Completed? then
      var rest := Chain(outs[1..]);
      Outcome(outs[0].actions + rest.actions, rest.status)
    else outs[0]
  }

  /** The position of the first check that does not return normally, if any. */
  function FirstStop(outs: seq<Outcome>): (r: Option<nat>)
    ensures r.Some? ==> r.value < |outs| && !outs[r.value].status.Completed?
    ensures r.Some? ==> forall j :: 0 <= j < r.value ==> outs[j].status.Completed?
    ensures r.None? <==> forall j :: 0 <= j < |outs| ==> outs[j].status.Completed?
  {
    if outs == [] then None
    else if !outs[0].status.Completed? then Some(0)
    else
      match FirstStop(outs[1..])
      case None => None
      case Some(i) => Some(i + 1)
  }

  /** How many checks run: all of them, or up to and including the first that stops. */
  function Ran(outs: seq<Outcome>): (n: nat)
    ensures n <= |outs|
  {
    match FirstStop(outs)
    case None => |outs|
    case Some(k) => k + 1
  }

  /** A normally returning first check adds one to the checks that run; any other is the only one. */
  lemma RanStep(outs: seq<Outcome>)
    requires outs != []
    ensures Ran(outs) == if outs[0].status.Completed? then Ran(outs[1..]) + 1 else 1
  {
  }

  /** All actions of the given checks, in order. */
  function AllActions(outs: seq<Outcome>): seq<Action>
  {
    if outs == [] then [] else outs[0].actions + AllActions(outs[1..])
  }

  /**
   * Running checks in order performs the actions of exactly the checks that
   * run, and ends normally when none stops, otherwise as the first that stops.
   */
  lemma {:induction false} ChainRunsUntilFirstStop(outs: seq<Outcome>)
    ensures Chain(outs).actions == AllActions(outs[..Ran(outs)])
    ensures Chain(outs).status == (match FirstStop(outs) case None => Completed case Some(k) => outs[k].status)
  {
    if outs == [] {
    } else if !outs[0].status.Completed? {
      var p := outs[..1];
      assert p[0] == outs[0] && p[1..] == [];
      assert AllActions(p) == outs[0].actions + [];
    } else {
      var tail := outs[1..];
      ChainRunsUntilFirstStop(tail);
      var n := Ran(outs);
      assert n == Ran(tail) + 1;
      var p := outs[..n];
      assert p[0] == outs[0] && p[1..] == tail[..Ran(tail)];
    }
  }

  /**
   * The fetches of a chain: when each check fetches at most once, and
   * exactly once if it returns normally, the k-th fetch of the chain is the
   * fetch of the k-th check, and every check that runs fetches except
   * possibly the last.
   */
  lemma {:induction false} ChainFetches(outs: seq<Outcome>)
    requires forall j :: 0 <= j < |outs| ==> |Fetches(outs[j].actions)| <= 1
    requires forall j :: 0 <= j < |outs| && outs[j].status.Completed? ==> |Fetches(outs[j].actions)| == 1
    ensures var f := Fetches(Chain(outs).actions);
      |f| <= Ran(outs) <= |f| + 1 && forall k :: 0 <= k < |f| ==> Fetches(outs[k].actions) == [f[k]]
  {
    if outs != [] && outs[0].status.Completed? {
      var tail := outs[1..];
      assert forall j :: 0 <= j < |tail| ==> tail[j] == outs[j + 1];
      ChainFetches(tail);
      RanStep(outs);
      var rest := Chain(tail);
      FetchesAppend(outs[0].actions, rest.actions);
      var f := Fetches(Chain(outs).actions);
      var g := Fetches(rest.actions);
      assert f == Fetches(outs[0].actions) + g;
      forall k | 0 <= k < |f|
        ensures Fetches(outs[k].actions) == [f[k]]
      {
        if k > 0 {
          assert f[k] == g[k - 1];
        }
      }
    }
  }

  /** When each check emits at most one message, a chain emits at most one per check that runs. */
  lemma {:induction false} ChainMessages(outs: seq<Outcome>)
    requires forall j :: 0 <= j < |outs| ==> |Messages(outs[j].actions)| <= 1
    ensures |Messages(Chain(outs).actions)| <= Ran(outs)
  {
    if outs != [] && outs[0].status.Completed? {
      var tail := outs[1..];
      assert forall j :: 0 <= j < |tail| ==> tail[j] == outs[j + 1];
      ChainMessages(tail);
      RanStep(outs);
      MessagesAppend(outs[0].actions, Chain(tail).actions);
    }
  }

  /** The messages of the given checks, joined in order. */
  function MessagesOf(outs: seq<Outcome>): seq<string>
  {
    if outs == [] then [] else Messages(outs[0].actions) + MessagesOf(outs[1..])
  }

  /** The messages of the checks' joined actions are their messages, joined in the same order. */
  lemma {:induction false} MessagesOfAllActions(outs: seq<Outcome>)
    ensures Messages(AllActions(outs)) == MessagesOf(outs)
  {
    if outs != [] {
      MessagesOfAllActions(outs[1..]);
      MessagesAppend(outs[0].actions, AllActions(outs[1..]));
    }
  }

  /** A chain's messages are those of the checks that run, in the order they run. */
  lemma ChainMessagesInOrder(outs: seq<Outcome>)
    ensures Messages(Chain(outs).actions) == MessagesOf(outs[..Ran(outs)])
  {
    ChainRunsUntilFirstStop(outs);
    MessagesOfAllActions(outs[..Ran(outs)]);
  }

  /** Checks related pairwise by turning prints into tweets, chained, are so related as a whole. */
  lemma {:induction false} ChainAsTweets(tw: seq<Outcome>, pr: seq<Outcome>)
    requires |tw| == |pr|
    requires forall j :: 0 <= j < |tw| ==> tw[j].actions == AsTweets(pr[j].actions) && tw[j].status == pr[j].status
    ensures Chain(tw).actions == AsTweets(Chain(pr).actions) && Chain(tw).status == Chain(pr).status
  {
    if tw != [] && pr[0].status.Completed? {
      assert forall j :: 0 <= j < |tw| - 1 ==> tw[1..][j] == tw[j + 1] && pr[1..][j] == pr[j + 1];
      ChainAsTweets(tw[1..], pr[1..]);
      AsTweetsAppend(pr[0].actions, Chain(pr[1..]).actions);
    }
  }

  /** A chain whose first stopping check is the i-th performs the actions of checks 0..i and ends as check i. */
  lemma ChainStopsAt(outs: seq<Outcome>, i: nat)
    requires i < |outs| && !outs[i].status.Completed?
    requires forall j :: 0 <= j < i ==> outs[j].status.Completed?
    ensures Chain(outs) == Outcome(AllActions(outs[..i]) + outs[i].actions, outs[i].status)
    ensures Ran(outs) == i + 1
  {
    ChainStopsAtActions(outs, i);
    FirstStopAt(outs, i);
  }

  /** The first check that does not return normally is the one FirstStop finds. */
  lemma {:induction false} FirstStopAt(outs: seq<Outcome>, i: nat)
    requires i < |outs| && !outs[i].status.Completed?
    requires forall j :: 0 <= j < i ==> outs[j].status.Completed?
    ensures FirstStop(outs) == Some(i)
  {
    if i > 0 {
      var tail := outs[1..];
      assert forall j :: 0 <= j <= i - 1 ==> tail[j] == outs[j + 1];
      FirstStopAt(tail, i - 1);
    }
  }

  lemma {:induction false} ChainStopsAtActions(outs: seq<Outcome>, i: nat)
    requires i < |outs| && !outs[i].status.Completed?
    requires forall j :: 0 <= j < i ==> outs[j].status.Completed?
    ensures Chain(outs) == Outcome(AllActions(outs[..i]) + outs[i].actions, outs[i].status)
  {
    if i == 0 {
      assert outs[..0] == [];
      assert [] + outs[0].actions == outs[0].actions;
    } else {
      var tail := outs[1..];
      CompletedTail(outs, i);
      ChainStopsAtActions(tail, i - 1);
      ChainCons(outs);
      AllActionsPrefixCons(outs, i);
      var a, rest := outs[0].actions, AllActions(tail[..i - 1]);
      assert a + (rest + outs[i].actions) == (a + rest) + outs[i].actions;
    }
  }

  /** Dropping a normally returning first check shifts the stopping position by one. */
  lemma CompletedTail(outs: seq<Outcome>, i: nat)
    requires 0 < i < |outs| && !outs[i].status.Completed?
    requires forall j :: 0 <= j < i ==> outs[j].status.Completed?
    ensures outs[0].status.Completed? && !outs[1..][i - 1].status.Completed?
    ensures forall j :: 0 <= j < i - 1 ==> outs[1..][j].status.Completed?
  {
    assert forall j :: 0 <= j < i - 1 ==> outs[1..][j] == outs[j + 1];
  }

  /** A normally returning first check runs its actions before the rest of the chain. */
  lemma ChainCons(outs: seq<Outcome>)
    requires outs != [] && outs[0].status.Completed?
    ensures Chain(outs) == Outcome(outs[0].actions + Chain(outs[1..]).actions, Chain(outs[1..]).status)
  {
  }

  lemma AllActionsPrefixCons(outs: seq<Outcome>, i: nat)
    requires 0 < i <= |outs|
    ensures AllActions(outs[..i]) == outs[0].actions + AllActions(outs[1..][..i - 1])
  {
    var p := outs[..i];
    assert p[0] == outs[0] && p[1..] == outs[1..][..i - 1];
  }

  /** A chain in which every check returns normally performs all their actions and completes. */
  lemma {:induction false} ChainCompletes(outs: seq<Outcome>)
    requires forall j :: 0 <= j < |outs| ==> outs[j].status.Completed?
    ensures Chain(outs) == Outcome(AllActions(outs), Completed)
    ensures outs[..|outs|] == outs
  {
    if outs != [] {
      assert forall j :: 0 <= j < |outs| - 1 ==> outs[1..][j] == outs[j + 1];
      ChainCompletes(outs[1..]);
    }
  }

  lemma {:induction false} AllActionsAppend(a: seq<Outcome>, b: seq<Outcome>)
    ensures AllActions(a + b) == AllActions(a) + AllActions(b)
  {
    if a == [] {
      assert a + b == b;
    } else {
      assert (a + b)[1..] == a[1..] + b;
      AllActionsAppend(a[1..], b);
    }
  }

  lemma CompletedThrough(outs: seq<Outcome>, i: nat)
    requires i < |outs| && outs[i].status.Completed?
    requires forall j :: 0 <= j < i ==> outs[j].status.Completed?
    ensures forall j :: 0 <= j < i + 1 ==> outs[j].status.Completed?
  {
  }

  lemma AllActionsSnoc(outs: seq<Outcome>, i: nat)
    requires i < |outs|
    ensures AllActions(outs[..i + 1]) == AllActions(outs[..i]) + outs[i].actions
  {
    AllActionsAppend(outs[..i], [outs[i]]);
    assert outs[..i + 1] == outs[..i] + [outs[i]];
    assert AllActions([outs[i]]) == outs[i].actions + AllActions([outs[i]][1..]);
    assert [outs[i]][1..] == [];
  }

  // ---------------------------------------------------------------------------
  // main
  // ---------------------------------------------------------------------------

  /** The check of the j-th location of locs, with the clock reading taken in it. */
  function Step(inp: Inputs, locs: seq<Location>, j: nat): Outcome
    requires WellFormed(inp, locs) && j < |locs|
  {
    Check(inp, locs[j], inp.starts[j])
  }

  /** The outcome each location's check would have, in the order of locs. */
  function Steps(inp: Inputs, locs: seq<Location>): (outs: seq<Outcome>)
    requires WellFormed(inp, locs)
    ensures |outs| == |locs|
    ensures forall j :: 0 <= j < |locs| ==> outs[j] == Step(inp, locs, j)
  {
    seq(|locs|, j requires 0 <= j < |locs| && WellFormed(inp, locs) => Step(inp, locs, j))
  }

  /**
   * The loop of main over a list of locations: check_for_openings for each
   * in turn. sys.exit(1) and an uncaught exception end the process, so no
   * later location is checked.
   */
  method CheckAll(inp: Inputs, locs: seq<Location>) returns (out: Outcome)
    requires WellFormed(inp, locs)
    ensures out == Chain(Steps(inp, locs))
  {
    var actions := [];
    ghost var outs := Steps(inp, locs);
    for i := 0 to |locs|
      invariant actions == AllActions(outs[..i])
      invariant forall j :: 0 <= j < i ==> outs[j].status.Completed?
    {
      var step := CheckForOpenings(inp, locs[i], inp.starts[i]);
      assert step == outs[i];
      if !step.status.Completed? {
        ChainStopsAt(outs, i);
        return Outcome(actions + step.actions, step.status);
      }
      AllActionsSnoc(outs, i);
      CompletedThrough(outs, i);
      actions := actions + step.actions;
    }
    ChainCompletes(outs);
    return Outcome(actions, Completed);
  }

  /** main(): for location_name, location_code in LOCATIONS: check_for_openings(...). */
  method Run(inp: Inputs) returns (out: Outcome)
    requires WellFormed(inp, LOCATIONS)
    ensures out == Chain(Steps(inp, LOCATIONS))
  {
    out := CheckAll(inp, LOCATIONS);
  }

  // ---------------------------------------------------------------------------
  // Properties of a run
  // ---------------------------------------------------------------------------

  /**
   * A run checks the locations in order, each at most once: the k-th fetch
   * is of location k's URL, every location checked is fetched except
   * possibly the last (whose window may overflow), at most one message is
   * emitted per location checked, and the run ends normally exactly when
   * every check returned normally.
   */
  lemma RunVisitsInOrder(inp: Inputs, locs: seq<Location>)
    requires WellFormed(inp, locs)
    ensures var out := Chain(Steps(inp, locs));
      var f := Fetches(out.actions);
      var n := Ran(Steps(inp, locs));
      |f| <= n <= |f| + 1
      && (forall k :: 0 <= k < |f| ==> FetchUrl(locs[k].code, inp.starts[k]) == Some(f[k]))
      && |Messages(out.actions)| <= n
      && (out.status.Completed? <==> forall j :: 0 <= j < |locs| ==> Step(inp, locs, j).status.Completed?)
  {
    var outs := Steps(inp, locs);
    forall j | 0 <= j < |outs|
      ensures |Fetches(outs[j].actions)| <= 1 && |Messages(outs[j].actions)| <= 1
      ensures outs[j].status.Completed? ==> |Fetches(outs[j].actions)| == 1
      ensures |Fetches(outs[j].actions)| == 1 ==> FetchUrl(locs[j].code, inp.starts[j]) == Some(Fetches(outs[j].actions)[0])
    {
      StepViews(inp, locs, j);
    }
    ChainFetches(outs);
    ChainMessages(outs);
    ChainRunsUntilFirstStop(outs);
  }

  /**
   * A run's messages are the locations' messages in the order of locs, over
   * the locations checked; each location's own message is the one
   * CheckEmitsFirstOpening gives.
   */
  lemma RunMessagesInOrder(inp: Inputs, locs: seq<Location>)
    requires WellFormed(inp, locs)
    ensures Messages(Chain(Steps(inp, locs)).actions) == MessagesOf(Steps(inp, locs)[..Ran(Steps(inp, locs))])
  {
    ChainMessagesInOrder(Steps(inp, locs));
  }

  /** One location's check fetches at most once, that location's URL, and emits at most one message. */
  lemma StepViews(inp: Inputs, locs: seq<Location>, j: nat)
    requires WellFormed(inp, locs) && j < |locs|
    ensures var out := Step(inp, locs, j);
      |Fetches(out.actions)| <= 1 && |Messages(out.actions)| <= 1
      && (out.status.Completed? ==> |Fetches(out.actions)| == 1)
      && (|Fetches(out.actions)| == 1 ==> FetchUrl(locs[j].code, inp.starts[j]) == Some(Fetches(out.actions)[0]))
  {
    CheckEmitsFirstOpening(inp, locs[j], inp.starts[j]);
  }

  /**
   * The halt on the first opening is per location: when the checks of
   * locations 0..j all return normally (an opening printed, or tweeted
   * without a raise, counts), the run goes on to check location j + 1.
   */
  lemma CompletedCheckContinues(inp: Inputs, locs: seq<Location>, j: nat)
    requires WellFormed(inp, locs) && j + 1 < |locs|
    requires forall k :: 0 <= k <= j ==> Step(inp, locs, k).status.Completed?
    ensures Ran(Steps(inp, locs)) >= j + 2
  {
    var outs := Steps(inp, locs);
    assert forall k :: 0 <= k <= j ==> outs[k].status.Completed?;
  }

  /**
   * A connection error while fetching location i, after every earlier check
   * returned normally, ends the run with exit status 1: the earlier checks'
   * actions stand, this check fetched once, and no later location is checked.
   */
  lemma ConnectionErrorEndsRun(inp: Inputs, locs: seq<Location>, i: nat)
    requires WellFormed(inp, locs) && i < |locs|
    requires forall j :: 0 <= j < i ==> Step(inp, locs, j).status.Completed?
    requires FetchUrl(locs[i].code, inp.starts[i]).Some?
    requires inp.fetch(FetchUrl(locs[i].code, inp.starts[i]).value).ConnectionError?
    ensures Chain(Steps(inp, locs))
         == Outcome(AllActions(Steps(inp, locs)[..i]) + [Fetch(FetchUrl(locs[i].code, inp.starts[i]).value)], Exited(1))
    ensures Ran(Steps(inp, locs)) == i + 1
  {
    var outs := Steps(inp, locs);
    assert outs[i] == Outcome([Fetch(FetchUrl(locs[i].code, inp.starts[i]).value)], Exited(1));
    ChainStopsAt(outs, i);
  }

  /**
   * Test mode only chooses the channel: when no tweet raises, the tweeting
   * run does what the test run does, with each print replaced by a tweet of
   * the same message, and ends the same way.
   */
  lemma TestModeOnlyChoosesChannel(inp: Inputs, locs: seq<Location>)
    requires WellFormed(inp, locs)
    requires forall m :: !Tweet(inp.send(m)).Raised?
    ensures Chain(Steps(inp.(testMode := false), locs)).actions == AsTweets(Chain(Steps(inp.(testMode := true), locs)).actions)
    ensures Chain(Steps(inp.(testMode := false), locs)).status == Chain(Steps(inp.(testMode := true), locs)).status
  {
    var tw, pr := inp.(testMode := false), inp.(testMode := true);
    forall j | 0 <= j < |locs|
      ensures Steps(tw, locs)[j].actions == AsTweets(Steps(pr, locs)[j].actions)
           && Steps(tw, locs)[j].status == Steps(pr, locs)[j].status
    {
      CheckTestModeOnlyChoosesChannel(inp, locs[j], inp.starts[j]);
    }
    ChainAsTweets(Steps(tw, locs), Steps(pr, locs));
  }
}
