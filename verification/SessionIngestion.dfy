/** Incremental reading of the Xray access log (internal/agent/session_reporter.go). A log is a string, one character
    per byte; times are nanoseconds. */
module SessionIngestion {
  import opened Common

  const MAX_INITIAL_SCAN: nat := 4 * 1024 * 1024
  const SECOND := 1_000_000_000

  datatype Key = Key(userID: int, proxyID: int, ip: string)

  /** A parsed line; the time is absent when the line carries none. */
  datatype Sighting = Sighting(key: Key, seenAt: Option<int>)

  datatype Session = Session(key: Key, lastSeenUnix: int, lastSeen: int)

  /** parseXrayAccessLogLine: None for a line that is not a sighting. */
  type Parser = string -> Option<Sighting>

  // ---- Lines ----

  /** strings.Split(s, "\n"): the pieces between newlines, at least one. */
  function Split(s: string): (pieces: seq<string>)
    ensures pieces != []
  {
    if s == "" then [""]
    else
      var pieces, c := Split(s[..|s| - 1]), s[|s| - 1];
      var last := |pieces| - 1;
      if c == '\n' then pieces + [""] else pieces[..last] + [pieces[last] + [c]]
  }

  function Join(pieces: seq<string>): string
    requires pieces != []
  {
    if |pieces| == 1 then pieces[0] else Join(pieces[..|pieces| - 1]) + "\n" + pieces[|pieces| - 1]
  }

  /** Split loses nothing and leaves no newline inside a piece. */
  lemma {:induction false} SplitJoins(s: string)
    ensures Join(Split(s)) == s
    ensures forall piece | piece in Split(s) :: '\n' !in piece
  {
    if s != "" {
      var init, c := s[..|s| - 1], s[|s| - 1];
      SplitJoins(init);
      var pieces := Split(init);
      var last := |pieces| - 1;
      assert s == init + [c];
      if c == '\n' {
        assert Split(s)[..last + 1] == pieces;
        assert s == init + "\n" + "";
      } else {
        assert Split(s)[..last] == pieces[..last];
        assert pieces[last] in pieces;
        if last == 0 {
          assert Split(s) == [pieces[0] + [c]];
        } else {
          assert init == Join(pieces[..last]) + "\n" + pieces[last];
          assert s == Join(pieces[..last]) + "\n" + (pieces[last] + [c]);
        }
      }
    }
  }

  /** The complete lines of a text, and the unfinished rest after the last newline. */
  function Lines(s: string): seq<string> {
    var pieces := Split(s);
    pieces[..|pieces| - 1]
  }

  function Rest(s: string): string {
    var pieces := Split(s);
    pieces[|pieces| - 1]
  }

  /** Reading on: what the rest and the new text contain is what the whole contains beyond the lines seen already. */
  lemma {:induction false} SplitAppend(a: string, b: string)
    ensures Lines(a + b) == Lines(a) + Lines(Rest(a) + b)
    ensures Rest(a + b) == Rest(Rest(a) + b)
  {
    hide Split, Lines, Rest;
    if b == "" {
      assert a + b == a && Rest(a) + b == Rest(a);
      RestSplits(a);
      assert Lines(a) + [] == Lines(a);
    } else {
      var init, c := b[..|b| - 1], b[|b| - 1];
      SplitAppend(a, init);
      assert (a + b)[..|a + b| - 1] == a + init && (a + b)[|a + b| - 1] == c;
      var rb := Rest(a) + b;
      assert rb[..|rb| - 1] == Rest(a) + init && rb[|rb| - 1] == c;
      SplitSnoc(a + init, c);
      SplitSnoc(Rest(a) + init, c);
      assert a + b == a + init + [c] && rb == Rest(a) + init + [c];
    }
  }

  lemma SplitSnoc(s: string, c: char)
    ensures c == '\n' ==> Lines(s + [c]) == Lines(s) + [Rest(s)] && Rest(s + [c]) == ""
    ensures c != '\n' ==> Lines(s + [c]) == Lines(s) && Rest(s + [c]) == Rest(s) + [c]
  {
    var t := s + [c];
    assert t[..|t| - 1] == s && t[|t| - 1] == c;
    var pieces := Split(s);
    assert pieces == Lines(s) + [Rest(s)];
    assert Split(t) == if c == '\n' then pieces + [""] else Lines(s) + [Rest(s) + [c]];
  }

  /** The unfinished rest is a single piece. */
  lemma {:induction false} RestSplits(s: string)
    ensures Lines(Rest(s)) == [] && Rest(Rest(s)) == Rest(s)
  {
    if s != "" {
      var init, c := s[..|s| - 1], s[|s| - 1];
      assert s == init + [c];
      RestSplits(init);
      SplitSnoc(init, c);
      SplitSnoc(Rest(init), c);
    }
  }

  lemma EndsWithNewline(s: string)
    requires s != ""
    ensures s[|s| - 1] == '\n' <==> Rest(s) == ""
  {
    var init, c := s[..|s| - 1], s[|s| - 1];
    assert s == init + [c];
    SplitSnoc(init, c);
  }

  // ---- Sessions ----

  function SeenAt(sighting: Sighting, now: int): int {
    if sighting.seenAt.Some? then sighting.seenAt.value else now
  }

  function SessionOf(sighting: Sighting, now: int): Session {
    Session(sighting.key, SeenAt(sighting, now) / SECOND, SeenAt(sighting, now))
  }

  function AbsorbLine(parse: Parser, sessions: map<Key, Session>, line: string, now: int): map<Key, Session> {
    match parse(line)
    case None => sessions
    case Some(sighting) =>
      var key := sighting.key;
      if key !in sessions || SeenAt(sighting, now) > sessions[key].lastSeen then sessions[key := SessionOf(sighting, now)]
      else sessions
  }

  function Absorb(parse: Parser, sessions: map<Key, Session>, lines: seq<string>, now: int): map<Key, Session> {
    if lines == [] then sessions
    else AbsorbLine(parse, Absorb(parse, sessions, lines[..|lines| - 1], now), lines[|lines| - 1], now)
  }

  function Pruned(sessions: map<Key, Session>, cutoff: int): map<Key, Session> {
    map key | key in sessions && sessions[key].lastSeen >= cutoff :: sessions[key]
  }

  lemma {:induction false} AbsorbAppend(parse: Parser, sessions: map<Key, Session>, a: seq<string>, b: seq<string>,
                                        now: int)
    ensures Absorb(parse, sessions, a + b, now) == Absorb(parse, Absorb(parse, sessions, a, now), b, now)
  {
    if b == [] {
      assert a + b == a;
    } else {
      AbsorbAppend(parse, sessions, a, b[..|b| - 1], now);
      assert (a + b)[..|a + b| - 1] == a + b[..|b| - 1];
    }
  }

  /** Reading more lines drops no session and moves none back in time. */
  lemma {:induction false} AbsorbKeepsKeys(parse: Parser, sessions: map<Key, Session>, lines: seq<string>, now: int)
    ensures forall key | key in sessions ::
              var after := Absorb(parse, sessions, lines, now);
              key in after && after[key].lastSeen >= sessions[key].lastSeen
  {
    if lines != [] {
      AbsorbKeepsKeys(parse, sessions, lines[..|lines| - 1], now);
    }
  }

  lemma NothingRead(parse: Parser, sessions: map<Key, Session>, now: int)
    ensures Lines("") == [] && Rest("") == "" && Absorb(parse, sessions, [], now) == sessions
  {
  }

  lemma NoSighting(parse: Parser, sessions: map<Key, Session>, lines: seq<string>, line: string, now: int)
    requires parse(line) == None
    ensures Absorb(parse, sessions, lines + [line], now) == Absorb(parse, sessions, lines, now)
  {
    var all := lines + [line];
    assert all[..|all| - 1] == lines;
  }

  ghost predicate Timed(parse: Parser, lines: seq<string>) {
    forall line | line in lines :: parse(line).Some? ==> parse(line).value.seenAt.Some?
  }

  /** With a time on every line it does not matter when the line is read. */
  lemma {:induction false} TimedIgnoresClock(parse: Parser, sessions: map<Key, Session>, lines: seq<string>, now: int,
                                             other: int)
    requires Timed(parse, lines)
    ensures Absorb(parse, sessions, lines, now) == Absorb(parse, sessions, lines, other)
  {
    if lines != [] {
      assert lines[|lines| - 1] in lines;
      TimedIgnoresClock(parse, sessions, lines[..|lines| - 1], now, other);
    }
  }

  ghost predicate Mentions(parse: Parser, line: string, key: Key) {
    parse(line).Some? && parse(line).value.key == key
  }

  /** Line i is the first one with the latest time among the lines that mention the key. */
  ghost predicate FirstLatest(parse: Parser, lines: seq<string>, key: Key, now: int, i: nat)
    requires i < |lines|
  {
    && Mentions(parse, lines[i], key)
    && forall j | 0 <= j < |lines| && Mentions(parse, lines[j], key) ::
         var seen, latest := SeenAt(parse(lines[j]).value, now), SeenAt(parse(lines[i]).value, now);
         seen <= latest && (j < i ==> seen < latest)
  }

  ghost predicate Mentioned(parse: Parser, lines: seq<string>, key: Key) {
    exists i | 0 <= i < |lines| :: Mentions(parse, lines[i], key)
  }

  ghost predicate HoldsLatest(parse: Parser, lines: seq<string>, key: Key, now: int, session: Session) {
    exists i: nat | i < |lines| :: FirstLatest(parse, lines, key, now, i)
        && session == SessionOf(parse(lines[i]).value, now)
  }

  /** The session map holds, for exactly the keys some line mentions, the latest of their lines. */
  lemma {:induction false} AbsorbKeepsLatest(parse: Parser, lines: seq<string>, key: Key, now: int)
    ensures key in Absorb(parse, map[], lines, now) <==> Mentioned(parse, lines, key)
    ensures key in Absorb(parse, map[], lines, now) ==>
        HoldsLatest(parse, lines, key, now, Absorb(parse, map[], lines, now)[key])
  {
    if lines != [] {
      var n := |lines| - 1;
      var init := lines[..n];
      AbsorbKeepsLatest(parse, init, key, now);
      MentionedSnoc(parse, lines, key);
      if Mentioned(parse, init, key) {
        LatestSnoc(parse, lines, key, now, Absorb(parse, map[], init, now)[key]);
      } else if Mentions(parse, lines[n], key) {
        FirstMention(parse, lines, key, now);
      }
    }
  }

  lemma MentionedSnoc(parse: Parser, lines: seq<string>, key: Key)
    requires lines != []
    ensures Mentioned(parse, lines, key) <==>
        Mentioned(parse, lines[..|lines| - 1], key) || Mentions(parse, lines[|lines| - 1], key)
  {
    var init := lines[..|lines| - 1];
    if i :| 0 <= i < |init| && Mentions(parse, init[i], key) {
      assert Mentions(parse, lines[i], key);
    }
    if i :| 0 <= i < |lines| && Mentions(parse, lines[i], key) {
      assert i < |init| ==> Mentions(parse, init[i], key);
    }
  }

  lemma FirstMention(parse: Parser, lines: seq<string>, key: Key, now: int)
    requires lines != [] && !Mentioned(parse, lines[..|lines| - 1], key) && Mentions(parse, lines[|lines| - 1], key)
    ensures HoldsLatest(parse, lines, key, now, SessionOf(parse(lines[|lines| - 1]).value, now))
  {
    var n := |lines| - 1;
    forall j | 0 <= j < n ensures !Mentions(parse, lines[j], key) {
      assert lines[..n][j] == lines[j];
    }
    assert FirstLatest(parse, lines, key, now, n);
  }

  lemma LatestSnoc(parse: Parser, lines: seq<string>, key: Key, now: int, session: Session)
    requires lines != [] && HoldsLatest(parse, lines[..|lines| - 1], key, now, session)
    ensures var last := lines[|lines| - 1];
            if Mentions(parse, last, key) && SeenAt(parse(last).value, now) > session.lastSeen
            then HoldsLatest(parse, lines, key, now, SessionOf(parse(last).value, now))
            else HoldsLatest(parse, lines, key, now, session)
  {
    var n := |lines| - 1;
    var init := lines[..n];
    var i: nat :| i < |init| && FirstLatest(parse, init, key, now, i)
        && session == SessionOf(parse(init[i]).value, now);
    assert lines[i] == init[i];
    if Mentions(parse, lines[n], key) && SeenAt(parse(lines[n]).value, now) > session.lastSeen {
      assert FirstLatest(parse, lines, key, now, n);
    } else {
      assert FirstLatest(parse, lines, key, now, i);
    }
  }

  /** Pruning early loses nothing that a later pruning would keep. */
  lemma {:induction false} PrunedAbsorb(parse: Parser, sessions: map<Key, Session>, lines: seq<string>, now: int,
                                        cutoff: int, later: int)
    requires cutoff <= later
    ensures Pruned(Absorb(parse, Pruned(sessions, cutoff), lines, now), later) == Pruned(Absorb(parse, sessions, lines, now), later)
    ensures forall key | key in Absorb(parse, sessions, lines, now) ::
              var whole, early := Absorb(parse, sessions, lines, now), Absorb(parse, Pruned(sessions, cutoff), lines, now);
              if key in early then early[key] == whole[key] || (early[key].lastSeen < cutoff && whole[key].lastSeen < cutoff)
              else whole[key].lastSeen < cutoff
    ensures Absorb(parse, Pruned(sessions, cutoff), lines, now).Keys <= Absorb(parse, sessions, lines, now).Keys
  {
    if lines != [] {
      PrunedAbsorb(parse, sessions, lines[..|lines| - 1], now, cutoff, later);
    }
  }

  // ---- One poll ----

  datatype Reader = Reader(lastOffset: nat, partialLine: string, sessions: map<Key, Session>)

  const FRESH := Reader(0, "", map[])

  /** A reader that has not read anything carries no partial line, and no partial line contains a newline. */
  ghost predicate Sound(r: Reader) {
    && (r.lastOffset == 0 ==> r.partialLine == "")
    && Lines(r.partialLine) == [] && Rest(r.partialLine) == r.partialLine
  }

  function IndexOfNewline(s: string): (index: Option<nat>)
    ensures index == None ==> '\n' !in s
    ensures index.Some? ==> index.value < |s| && s[index.value] == '\n' && '\n' !in s[..index.value]
  {
    if s == "" then None
    else if s[0] == '\n' then Some(0)
    else
      match IndexOfNewline(s[1..])
      case None => None
      case Some(i) => assert s[..i + 1] == [s[0]] + s[1..][..i]; Some(i + 1)
  }

  /** Where the first scan of a large file starts: after the first newline of the last 4 MiB, else at its end. */
  function Cut(file: string): (cut: nat)
    requires |file| > MAX_INITIAL_SCAN
    ensures cut <= |file|
  {
    match IndexOfNewline(file[|file| - MAX_INITIAL_SCAN..])
    case None => |file|
    case Some(i) => |file| - MAX_INITIAL_SCAN + i + 1
  }

  /** The text one poll works through: the carried partial line and what is new in the file. */
  function Unread(r: Reader, file: string): string {
    if r.lastOffset == 0 && |file| > MAX_INITIAL_SCAN then file[Cut(file)..]
    else if r.lastOffset > |file| then file
    else r.partialLine + file[r.lastOffset..]
  }

  function Ingested(parse: Parser, r: Reader, file: string, now: int): Reader {
    var text := Unread(r, file);
    Reader(|file|, Rest(text), Absorb(parse, r.sessions, Lines(text), now))
  }

  lemma IngestKeepsKeys(parse: Parser, r: Reader, file: string, now: int)
    ensures forall key | key in r.sessions ::
              var after := Ingested(parse, r, file, now).sessions;
              key in after && after[key].lastSeen >= r.sessions[key].lastSeen
  {
    AbsorbKeepsKeys(parse, r.sessions, Lines(Unread(r, file)), now);
  }

  /** How a poll finds the log: it cannot be opened or examined; it has a size but cannot be positioned or read; or it is
      read. */
  datatype LogAccess = Unavailable | Unreadable(size: nat) | Content(text: string)

  /** A file that shrank loses the carried line even if reading it then fails; the offset stays. */
  function Accessed(parse: Parser, r: Reader, log: LogAccess, now: int): Reader {
    match log
    case Unavailable => r
    case Unreadable(size) => if r.lastOffset > size then r.(partialLine := "") else r
    case Content(file) => Ingested(parse, r, file, now)
  }

  class SessionReporter {
    const parse: Parser
    const lookback: int
    var resolvedLogPath: string
    var lastOffset: nat
    var partialLine: string
    var recentSessions: map<Key, Session>

    ghost predicate Valid()
      reads this
    {
      parse("") == None && Sound(State())
    }

    function State(): Reader
      reads this
    {
      Reader(lastOffset, partialLine, recentSessions)
    }

    constructor (parse: Parser, lookback: int)
      requires parse("") == None
      ensures Valid() && State() == FRESH && resolvedLogPath == "" && this.parse == parse && this.lookback == lookback
    {
      this.parse, this.lookback := parse, lookback;
      resolvedLogPath, lastOffset, partialLine, recentSessions := "", 0, "", map[];
    }

    /** Reads on in the log, whose content is `file` at this moment. */
    method Ingest(file: string, now: int)
      requires Valid()
      modifies this`lastOffset, this`partialLine, this`recentSessions
      ensures Valid() && State() == Ingested(parse, old(State()), file, now)
    {
      hide Split, Absorb, IndexOfNewline, Lines, Rest;
      var startOffset := lastOffset;
      var initialScan := false;
      if startOffset == 0 && |file| > MAX_INITIAL_SCAN {
        startOffset := |file| - MAX_INITIAL_SCAN;
        initialScan := true;
      }
      if startOffset > |file| {
        startOffset := 0;
        partialLine := "";
      }
      var data := file[startOffset..];
      lastOffset := |file|;
      RestSplits(Unread(old(State()), file));
      NothingRead(parse, recentSessions, now);
      if |data| == 0 {
        assert partialLine + data == partialLine;
        return;
      }
      if initialScan && startOffset > 0 {
        match IndexOfNewline(data)
        case Some(idx) =>
          data := data[idx + 1..];
        case None =>
          partialLine := "";
          return;
      }
      var content := partialLine + data;
      assert content == Unread(old(State()), file);
      AbsorbContent(content, now);
    }

    /** Carries the unfinished last line and works through the others. */
    method AbsorbContent(content: string, now: int)
      requires parse("") == None
      modifies this`partialLine, this`recentSessions
      ensures partialLine == Rest(content)
      ensures recentSessions == Absorb(parse, old(recentSessions), Lines(content), now)
    {
      hide Split, Absorb;
      var lines := Split(content);
      if content == "" || content[|content| - 1] != '\n' {
        partialLine := lines[|lines| - 1];
        lines := lines[..|lines| - 1];
      } else {
        EndsWithNewline(content);
        partialLine := "";
        assert lines == Lines(content) + [""];
        NoSighting(parse, recentSessions, Lines(content), "", now);
      }
      AbsorbLines(lines, now);
    }

    method AbsorbLines(lines: seq<string>, now: int)
      modifies this`recentSessions
      ensures recentSessions == Absorb(parse, old(recentSessions), lines, now)
    {
      for i := 0 to |lines|
        invariant recentSessions == Absorb(parse, old(recentSessions), lines[..i], now)
      {
        assert lines[..i + 1][..i] == lines[..i];
        match parse(lines[i])
        case None =>
        case Some(sighting) =>
          var seenAt := if sighting.seenAt.Some? then sighting.seenAt.value else now;
          if sighting.key !in recentSessions || seenAt > recentSessions[sighting.key].lastSeen {
            recentSessions := recentSessions[sighting.key := Session(sighting.key, seenAt / SECOND, seenAt)];
          }
      }
      assert lines[..|lines|] == lines;
    }

    method Prune(now: int)
      modifies this`recentSessions
      ensures recentSessions == Pruned(old(recentSessions), now - lookback)
      ensures forall key | key in recentSessions ::
                && key in old(recentSessions) && recentSessions[key] == old(recentSessions)[key]
                && recentSessions[key].lastSeen >= now - lookback
      ensures forall key | key in old(recentSessions) && old(recentSessions)[key].lastSeen >= now - lookback ::
                key in recentSessions
    {
      var cutoff := now - lookback;
      var todo := recentSessions.Keys;
      while todo != {}
        invariant todo <= recentSessions.Keys <= old(recentSessions).Keys
        invariant forall key | key in recentSessions :: recentSessions[key] == old(recentSessions)[key]
        invariant forall key | key in old(recentSessions) && key !in todo ::
                    key in recentSessions <==> old(recentSessions)[key].lastSeen >= cutoff
        decreases |todo|
      {
        var key :| key in todo;
        todo := todo - {key};
        if recentSessions[key].lastSeen < cutoff {
          recentSessions := recentSessions - {key};
        }
      }
    }

    /** One collection from the log at `path`. */
    method Collect(path: string, log: LogAccess, now: int) returns (sessions: Option<set<Session>>)
      requires Valid()
      modifies this
      ensures Valid() && resolvedLogPath == path
      ensures var start := if path == old(resolvedLogPath) then old(State()) else FRESH;
              var read := Accessed(parse, start, log, now);
              State() == read.(sessions := Pruned(read.sessions, now - lookback))
      ensures path == old(resolvedLogPath) && log.Unavailable? ==>
                lastOffset == old(lastOffset) && partialLine == old(partialLine)
      ensures path == old(resolvedLogPath) && log.Unreadable? ==>
                && lastOffset == old(lastOffset)
                && partialLine == if log.size < old(lastOffset) then "" else old(partialLine)
      ensures forall key | key in recentSessions :: recentSessions[key].lastSeen >= now - lookback
      ensures path == old(resolvedLogPath) ==>
                forall key | key in old(recentSessions) && old(recentSessions)[key].lastSeen >= now - lookback ::
                  key in recentSessions && recentSessions[key].lastSeen >= old(recentSessions)[key].lastSeen
      ensures sessions == if log.Content? then Some(set key | key in recentSessions :: recentSessions[key]) else None
    {
      NothingRead(parse, map[], now);
      hide Split, Lines, Rest, Ingested, Absorb;
      if path != resolvedLogPath {
        resolvedLogPath, lastOffset, partialLine, recentSessions := path, 0, "", map[];
      }
      match log
      case Unavailable =>
        Prune(now);
        return None;
      case Unreadable(size) =>
        if lastOffset > size {
          partialLine := "";
        }
        Prune(now);
        return None;
      case Content(file) =>
        IngestKeepsKeys(parse, State(), file, now);
        Ingest(file, now);
        Prune(now);
        return Some(set key | key in recentSessions :: recentSessions[key]);
    }
  }

  // ---- Any number of polls of a log that only grows ----

  /** A poll finds the first `size` bytes of the log. */
  datatype Poll = Poll(size: nat, now: int)

  ghost predicate Polls(log: string, polls: seq<Poll>) {
    && (forall i | 0 <= i < |polls| :: polls[i].size <= |log|)
    && forall i, j | 0 <= i < j < |polls| :: polls[i].size <= polls[j].size && polls[i].now <= polls[j].now
  }

  ghost function Polled(parse: Parser, lookback: int, log: string, polls: seq<Poll>): Reader
    requires Polls(log, polls)
  {
    if polls == [] then FRESH
    else
      var last := polls[|polls| - 1];
      var read := Ingested(parse, Polled(parse, lookback, log, polls[..|polls| - 1]), log[..last.size], last.now);
      read.(sessions := Pruned(read.sessions, last.now - lookback))
  }

  /** Where in the log reading began: at the start, unless the first non-empty poll was over the scan limit. */
  ghost function Base(log: string, polls: seq<Poll>): (base: nat)
    requires Polls(log, polls)
    ensures polls != [] ==> base <= polls[|polls| - 1].size
  {
    if polls == [] then 0
    else
      var init, size := polls[..|polls| - 1], polls[|polls| - 1].size;
      if init != [] && init[|init| - 1].size > 0 then Base(log, init)
      else if size > MAX_INITIAL_SCAN then Cut(log[..size]) else 0
  }

  ghost predicate NothingBefore(polls: seq<Poll>, i: nat)
    requires i <= |polls|
  {
    forall j | 0 <= j < i :: polls[j].size == 0
  }

  ghost predicate FirstReadWithinLimit(polls: seq<Poll>) {
    forall i: nat | i < |polls| && NothingBefore(polls, i) :: polls[i].size <= MAX_INITIAL_SCAN
  }

  lemma {:induction false} BaseIsZero(log: string, polls: seq<Poll>)
    requires Polls(log, polls)
    requires FirstReadWithinLimit(polls)
    ensures Base(log, polls) == 0
  {
    if polls != [] {
      var init := polls[..|polls| - 1];
      forall i: nat | i < |init| && NothingBefore(init, i) ensures init[i].size <= MAX_INITIAL_SCAN {
        assert NothingBefore(polls, i);
      }
      BaseIsZero(log, init);
      assert (init == [] || init[|init| - 1].size == 0) ==> NothingBefore(polls, |init|);
    }
  }

  /** A first scan over the limit starts at a line of its own when there is a newline to start after; the lines it
      reads are then the last lines of the whole file. */
  lemma FirstScanReadsWholeLines(file: string)
    requires |file| > 4_194_304
    ensures var cut, window := Cut(file), file[|file| - 4_194_304..];
            if '\n' in window then
              cut > |file| - 4_194_304 && file[cut - 1] == '\n'
                  && '\n' !in file[|file| - 4_194_304..cut - 1] &&
              Lines(file) == Lines(file[..cut]) + Lines(file[cut..])
            else cut == |file|
  {
    hide Split, IndexOfNewline;
    var cut, from := Cut(file), |file| - MAX_INITIAL_SCAN;
    var window := file[from..];
    if '\n' in window {
      var i := IndexOfNewline(window).value;
      assert window[..i] == file[from..cut - 1];
      EndsWithNewline(file[..cut]);
      SplitAppend(file[..cut], file[cut..]);
      assert file[..cut] + file[cut..] == file;
      assert "" + file[cut..] == file[cut..];
    }
  }

  /** The reader is where one split of everything read would put it: at the end of the log, with the unfinished last
      line carried, and (with times on all lines) with the latest unexpired sighting per key. */
  ghost predicate OneRead(parse: Parser, lookback: int, log: string, polls: seq<Poll>)
    requires Polls(log, polls) && polls != []
  {
    var last, base := polls[|polls| - 1], Base(log, polls);
    var reader, text := Polled(parse, lookback, log, polls), log[base..last.size];
    && reader.lastOffset == last.size
    && reader.partialLine == Rest(text)
    && (Timed(parse, Lines(text)) ==>
          reader.sessions == Pruned(Absorb(parse, map[], Lines(text), last.now), last.now - lookback))
  }

  lemma PrefixPolls(log: string, polls: seq<Poll>)
    requires Polls(log, polls) && polls != []
    ensures Polls(log, polls[..|polls| - 1])
  {
  }

  lemma FirstRead(parse: Parser, lookback: int, log: string, polls: seq<Poll>)
    requires Polls(log, polls) && polls != [] && (|polls| == 1 || polls[|polls| - 2].size == 0)
    ensures OneRead(parse, lookback, log, polls)
  {
    hide Split, Rest, Lines, Cut, Absorb, Pruned;
    var init, last := polls[..|polls| - 1], polls[|polls| - 1];
    var base := Base(log, polls);
    var file, text := log[..last.size], log[base..last.size];
    EmptyReader(parse, lookback, log, init);
    assert Unread(Polled(parse, lookback, log, init), file) == text by {
      assert file[base..] == text;
      assert "" + file[0..] == file;
    }
  }

  lemma LaterRead(parse: Parser, lookback: int, log: string, polls: seq<Poll>)
    requires Polls(log, polls) && |polls| > 1 && polls[|polls| - 2].size > 0
    requires OneRead(parse, lookback, log, polls[..|polls| - 1])
    ensures OneRead(parse, lookback, log, polls)
  {
    hide Split, Rest, Lines, Cut, Absorb, Pruned;
    var k := |polls| - 1;
    var init, last := polls[..k], polls[k];
    var base, size := Base(log, init), init[k - 1].size;
    assert base == Base(log, polls);
    var file, text := log[..last.size], log[base..last.size];
    var before, after := log[base..size], log[size..last.size];
    assert file[size..] == after && before + after == text;
    SplitAppend(before, after);
    var reader := Polled(parse, lookback, log, init);
    assert Unread(reader, file) == Rest(before) + after;
    if Timed(parse, Lines(text)) {
      assert Timed(parse, Lines(before)) by {
        forall line | line in Lines(before) ensures line in Lines(text) { }
      }
      SessionsAfterTwoReads(parse, Lines(before), Lines(Rest(before) + after), init[k - 1].now, last.now, lookback);
    }
  }

  lemma {:induction false} EmptyReader(parse: Parser, lookback: int, log: string, polls: seq<Poll>)
    requires Polls(log, polls) && (polls == [] || polls[|polls| - 1].size == 0)
    ensures Polled(parse, lookback, log, polls) == FRESH
  {
    hide Split, Lines, Rest, Cut, Absorb;
    if polls != [] {
      EmptyReader(parse, lookback, log, polls[..|polls| - 1]);
      NothingRead(parse, map[], polls[|polls| - 1].now);
      assert log[..0] == "" && "" + ""[0..] == "";
    }
  }

  lemma SessionsAfterTwoReads(parse: Parser, a: seq<string>, b: seq<string>, now: int, later: int, lookback: int)
    requires now <= later && Timed(parse, a + b)
    ensures Pruned(Absorb(parse, Pruned(Absorb(parse, map[], a, now), now - lookback), b, later), later - lookback) ==
            Pruned(Absorb(parse, map[], a + b, later), later - lookback)
  {
    hide Absorb, Pruned;
    assert Timed(parse, a) by {
      forall line | line in a ensures line in a + b { }
    }
    TimedIgnoresClock(parse, map[], a, now, later);
    PrunedAbsorb(parse, Absorb(parse, map[], a, later), b, later, now - lookback, later - lookback);
    AbsorbAppend(parse, map[], a, b, later);
  }

  /** Whatever the poll boundaries, the reader ends up there, although every poll pruned in between. */
  lemma {:induction false} PollsEqualOneRead(parse: Parser, lookback: int, log: string, polls: seq<Poll>)
    requires Polls(log, polls) && polls != []
    ensures OneRead(parse, lookback, log, polls)
  {
    var k := |polls| - 1;
    var init := polls[..k];
    PrefixPolls(log, polls);
    hide *;
    if k == 0 || polls[k - 1].size == 0 {
      FirstRead(parse, lookback, log, polls);
    } else {
      PollsEqualOneRead(parse, lookback, log, init);
      LaterRead(parse, lookback, log, polls);
    }
  }

  /** Under the scan limit this is one split of the whole file. */
  lemma PollsEqualOneSplit(parse: Parser, lookback: int, log: string, polls: seq<Poll>)
    requires Polls(log, polls) && polls != []
    requires FirstReadWithinLimit(polls)
    ensures var last := polls[|polls| - 1];
            var reader, pieces := Polled(parse, lookback, log, polls), Split(log[..last.size]);
            var lines := pieces[..|pieces| - 1];
            && reader.partialLine == pieces[|pieces| - 1]
            && (Timed(parse, lines) ==> forall key ::
                  && (key in reader.sessions ==>
                        && HoldsLatest(parse, lines, key, last.now, reader.sessions[key])
                        && KeyAndSecond(reader.sessions[key], key))
                  && (key in reader.sessions <==> SightedSince(parse, lines, key, last.now - lookback)))
  {
    var last := polls[|polls| - 1];
    BaseIsZero(log, polls);
    PollsEqualOneRead(parse, lookback, log, polls);
    var file := log[..last.size];
    assert log[0..last.size] == file;
    var lines, reader := Lines(file), Polled(parse, lookback, log, polls);
    if Timed(parse, lines) {
      forall key: Key ensures
          && (key in reader.sessions ==>
                HoldsLatest(parse, lines, key, last.now, reader.sessions[key]) && KeyAndSecond(reader.sessions[key], key))
          && (key in reader.sessions <==> SightedSince(parse, lines, key, last.now - lookback))
      {
        AbsorbKeepsLatest(parse, lines, key, last.now);
        LatestDecides(parse, lines, key, last.now, last.now - lookback);
        if key in reader.sessions { HeldSession(parse, lines, key, last.now, reader.sessions[key]); }
      }
    }
  }

  /** Some line mentions the key with a time that is not before the cutoff. */
  ghost predicate SightedSince(parse: Parser, lines: seq<string>, key: Key, cutoff: int) {
    exists i: nat | i < |lines| ::
      Mentions(parse, lines[i], key) && parse(lines[i]).value.seenAt.Some? && parse(lines[i]).value.seenAt.value >= cutoff
  }

  /** The session of the key, with the whole second of its last sighting. */
  predicate KeyAndSecond(session: Session, key: Key) {
    && session.key == key
    && session.lastSeenUnix * 1_000_000_000 <= session.lastSeen < (session.lastSeenUnix + 1) * 1_000_000_000
  }

  /** A line without a time counts as seen when it is read. */
  lemma HeldSession(parse: Parser, lines: seq<string>, key: Key, now: int, session: Session)
    requires HoldsLatest(parse, lines, key, now, session)
    ensures KeyAndSecond(session, key)
    ensures exists i: nat | i < |lines| :: Mentions(parse, lines[i], key)
              && session.lastSeen == match parse(lines[i]).value.seenAt { case Some(at) => at case None => now }
  {
    var i: nat :| i < |lines| && FirstLatest(parse, lines, key, now, i) && session == SessionOf(parse(lines[i]).value, now);
    assert Mentions(parse, lines[i], key);
  }

  lemma LatestDecides(parse: Parser, lines: seq<string>, key: Key, now: int, cutoff: int)
    requires Timed(parse, lines)
    ensures SightedSince(parse, lines, key, cutoff) ==> Mentioned(parse, lines, key)
    ensures forall s | HoldsLatest(parse, lines, key, now, s) ::
              s.lastSeen >= cutoff <==> SightedSince(parse, lines, key, cutoff)
  {
    forall s | HoldsLatest(parse, lines, key, now, s) ensures s.lastSeen >= cutoff <==> SightedSince(parse, lines, key, cutoff) {
      var i: nat :| i < |lines| && FirstLatest(parse, lines, key, now, i) && s == SessionOf(parse(lines[i]).value, now);
      assert Mentions(parse, lines[i], key) && lines[i] in lines;
      if k: nat :| k < |lines| && Mentions(parse, lines[k], key) && parse(lines[k]).value.seenAt.Some?
                   && parse(lines[k]).value.seenAt.value >= cutoff {
        assert SeenAt(parse(lines[k]).value, now) <= SeenAt(parse(lines[i]).value, now);
      }
    }
  }
}
