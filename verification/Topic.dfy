// The topic naming contract (src/topic.rs): canonical form, the two validators, the
// builders, and the split-based readers used by the engine and the heartbeat monitor.
module Topic {
  import opened Wrappers
  import opened Strings

  datatype TopicErrorKind = Empty | UnknownPattern

  function Canonicalize(s: string): (r: string) {
    if "robot-" <= s then
      var rest := s[|"robot-"|..];
      match FindSlash(rest)
      case Some(slash) => "robot/" + rest[..slash] + rest[slash..]
      case None => "robot/" + rest
    else s
  }

  // A row of a match table: `Some` is a literal segment, `None` is the source's `_`, which
  // matches any segment, wildcards included.
  type Row = seq<Option<string>>

  predicate RowMatches(row: Row, parts: seq<string>) {
    |row| == |parts| && forall i :: 0 <= i < |row| ==> row[i].None? || row[i].value == parts[i]
  }

  // Topics: the names the system publishes. Wildcards: the subscription shapes with `*` or `**`.
  datatype Table = Topics | Wildcards

  function Size(t: Table): (r: nat) {
    if t.Topics? then 21 else 10
  }

  function TableRow(t: Table, n: nat): (r: Row) {
    match t
    case Topics => (
      match n
      case 0 => [Some("robot"), None, Some("local"), None]
      case 1 => [Some("robot"), None, Some("location"), None]
      case 2 => [Some("robot"), None, Some("signal"), Some("presence")]
      case 3 => [Some("robot"), None, Some("signal"), None, None]
      case 4 => [Some("robot"), None, Some("zone")]
      case 5 => [Some("robot"), None, Some("site")]
      case 6 => [Some("robot"), None, Some("client"), Some("liveliness")]
      case 7 => [Some("fleet"), Some("registration")]
      case 8 => [Some("fleet"), Some("deregistration")]
      case 9 => [Some("fleet"), Some("registration"), Some("response"), None]
      case 10 => [Some("fleet"), Some("deregistration"), Some("response"), None]
      case 11 => [Some("fleet"), Some("alerts"), Some("heartbeat"), None]
      case 12 => [Some("fleet"), None, Some("ruleset"), None]
      case 13 => [Some("stop"), None, Some("cmd")]
      case 14 => [Some("lidar"), None, Some("scan")]
      case 15 => [Some("zone"), None, Some("entered")]
      case 16 => [Some("zone"), None, Some("cleared")]
      case 17 => [Some("zone"), None, None, None, Some("entered")]
      case 18 => [Some("zone"), None, None, None, Some("cleared")]
      case 19 => [Some("sensor"), None]
      case _ => [Some("actuator"), None]
    )
    case Wildcards => (
      match n
      case 0 => [Some("robot"), Some("*"), Some("client"), Some("liveliness")]
      case 1 => [Some("robot"), Some("*"), Some("signal"), Some("presence")]
      case 2 => [Some("robot"), Some("*"), Some("signal"), None, Some("offer")]
      case 3 => [Some("robot"), Some("*"), Some("signal"), None, Some("answer")]
      case 4 => [Some("robot"), Some("*"), Some("signal"), None, Some("ice")]
      case 5 => [Some("fleet"), Some("*"), Some("ruleset"), Some("**")]
      case 6 => [Some("zone"), Some("*"), Some("entered")]
      case 7 => [Some("zone"), Some("*"), Some("cleared")]
      case 8 => [Some("zone"), Some("*"), Some("*"), Some("*"), Some("entered")]
      case _ => [Some("zone"), Some("*"), Some("*"), Some("*"), Some("cleared")]
    )
  }

  // Rows are tried in order.
  predicate MatchesFrom(t: Table, n: nat, parts: seq<string>)
    decreases Size(t) - n
  {
    n < Size(t) && (RowMatches(TableRow(t, n), parts) || MatchesFrom(t, n + 1, parts))
  }

  predicate MatchesOneOf(parts: seq<string>) {
    MatchesFrom(Topics, 0, parts)
  }

  predicate WildcardShape(parts: seq<string>) {
    MatchesFrom(Wildcards, 0, parts)
  }

  // Order does not matter: matching is being on some row.
  lemma {:induction false} MatchesSomeRow(t: Table, n: nat, parts: seq<string>)
    ensures MatchesFrom(t, n, parts) <==> exists k :: n <= k < Size(t) && RowMatches(TableRow(t, k), parts)
    decreases Size(t) - n
  {
    if n < Size(t) {
      MatchesSomeRow(t, n + 1, parts);
      if MatchesFrom(t, n, parts) && !RowMatches(TableRow(t, n), parts) {
        var k :| n + 1 <= k < Size(t) && RowMatches(TableRow(t, k), parts);
      }
    }
  }

  predicate IsWildcard(p: string) {
    p == "*" || p == "**"
  }

  predicate IsValidPattern(parts: seq<string>) {
    if WildcardShape(parts) then true
    else if exists p | p in parts :: IsWildcard(p) then false
    else MatchesOneOf(parts)
  }

  // `Topic::try_new`
  function TryNewTopic(s: string): (r: Result<string, TopicErrorKind>) {
    if s == "" then Failure(Empty)
    else
      var canon := Canonicalize(s);
      if MatchesOneOf(Split(canon)) then Success(canon) else Failure(UnknownPattern)
  }

  // `Pattern::try_new`
  function TryNewPattern(s: string): (r: Result<string, TopicErrorKind>) {
    if s == "" then Failure(Empty)
    else if (HasDoubleSlash(s) || s[0] == '/' || s[|s| - 1] == '/')
            && s != "fleet/*/ruleset/**" && HasDoubleSlash(s) then Failure(UnknownPattern)
    else
      var canon := Canonicalize(s);
      if IsValidPattern(Split(canon)) then Success(canon) else Failure(UnknownPattern)
  }

  // --- Builders (ids are slash-free; the source panics otherwise) -------------

  function RobotLocal(robotId: Id, resource: Id): (r: string) {
    Join(["robot", robotId, "local", resource])
  }

  function LivelinessKey(robotId: Id): (r: string) {
    Join(["robot", robotId, "client", "liveliness"])
  }

  function RegistrationResponse(robotId: Id): (r: string) {
    Join(["fleet", "registration", "response", robotId])
  }

  function DeregistrationResponse(robotId: Id): (r: string) {
    Join(["fleet", "deregistration", "response", robotId])
  }

  function HeartbeatAlert(robotId: Id): (r: string) {
    Join(["fleet", "alerts", "heartbeat", robotId])
  }

  function StopCmd(scope: Id): (r: string) {
    Join(["stop", scope, "cmd"])
  }

  function ZoneEntered(zoneId: Id): (r: string) {
    Join(["zone", zoneId, "entered"])
  }

  function ZoneCleared(zoneId: Id): (r: string) {
    Join(["zone", zoneId, "cleared"])
  }

  // --- Readers ---------------------------------------------------------------

  predicate StartsWith(s: string, prefix: string) {
    prefix <= s
  }

  predicate EndsWith(s: string, suffix: string) {
    |suffix| <= |s| && s[|s| - |suffix|..] == suffix
  }

  // The heartbeat monitor's reading of a liveliness key: the second segment, if there is one.
  function LivelinessRobot(key: string): (r: Option<Id>) {
    var parts := Split(key);
    JoinSplit(key);
    if |parts| < 2 then None else Some(parts[1])
  }

  datatype ZoneTopic = ZoneTopic(zoneId: string, entered: bool)

  // Topics the engine treats as zone events rather than sensor samples.
  predicate IsZoneTopic(topic: string) {
    StartsWith(topic, "zone/") && (EndsWith(topic, "/entered") || EndsWith(topic, "/cleared"))
  }

  // The engine's reading of a zone topic: the second of at least three segments.
  function ReadZoneTopic(topic: string): (r: Option<ZoneTopic>) {
    var parts := Split(topic);
    if IsZoneTopic(topic) && |parts| >= 3 then Some(ZoneTopic(parts[1], EndsWith(topic, "/entered")))
    else None
  }

  // --- Zone topics by their segments --------------------------------------------

  lemma {:induction false} JoinLast(parts: seq<string>)
    requires |parts| > 1
    ensures Join(parts) == Join(parts[..|parts| - 1]) + "/" + parts[|parts| - 1]
  {
    var n := |parts| - 1;
    if n > 1 {
      JoinLast(parts[1..]);
      assert parts[1..][..n - 1] == parts[..n][1..];
    }
  }

  // A joined path ends in a slash and a segment exactly when that is its last segment of several.
  lemma EndsInSegment(parts: seq<string>, v: string)
    requires Segments(parts) && SlashFree(v)
    ensures EndsWith(Join(parts), "/" + v) <==> |parts| > 1 && parts[|parts| - 1] == v
  {
    var s, n, suffix := Join(parts), |parts| - 1, "/" + v;
    if |parts| > 1 {
      JoinLast(parts);
      SameEnd(s, Join(parts[..n]), parts[n], v);
    }
    assert suffix[0] == '/';
  }

  lemma SameEnd(s: string, front: string, last: string, v: string)
    requires s == front + "/" + last && SlashFree(last) && SlashFree(v)
    ensures EndsWith(s, "/" + v) <==> last == v
  {
    var suffix := "/" + v;
    assert s[|front|] == '/' && s[|front| + 1..] == last && suffix[1..] == v;
    assert |v| < |last| ==> s[|s| - |suffix|] == last[|last| - |suffix|];
    assert |v| > |last| && |suffix| <= |s| ==> s[|s| - |suffix|..][|v| - |last|] == s[|front|];
    assert |v| > |last| ==> suffix[|v| - |last|] == v[|v| - |last| - 1];
    assert |v| == |last| ==> s[|s| - |suffix|..] == "/" + last;
  }

  lemma StartsWithSegment(parts: seq<string>, v: string)
    requires Segments(parts) && SlashFree(v)
    ensures StartsWith(Join(parts), v + "/") <==> |parts| > 1 && parts[0] == v
  {
    var s, prefix := Join(parts), v + "/";
    if |parts| > 1 {
      SameStart(s, parts[0], Join(parts[1..]), v);
    }
    assert prefix[|v|] == '/';
  }

  lemma SameStart(s: string, first: string, rest: string, v: string)
    requires s == first + "/" + rest && SlashFree(first) && SlashFree(v)
    ensures StartsWith(s, v + "/") <==> first == v
  {
    var prefix := v + "/";
    assert s[|first|] == '/' && s[..|first|] == first;
    assert prefix[..|v|] == v && prefix[|v|] == '/';
    assert |v| < |first| ==> s[|v|] == first[|v|];
    assert |first| < |v| ==> prefix[|first|] == v[|first|];
    assert StartsWith(s, prefix) && |v| == |first| ==> s[..|v|] == prefix[..|v|];
  }

  // The engine takes for zone events the topics of two or more segments from `zone` to `entered`
  // or `cleared`, and reads the second segment of those with three or more.
  lemma ZoneTopicBySegments(topic: string)
    ensures var parts := Split(topic); var n := |parts| - 1;
            && (IsZoneTopic(topic) <==> n >= 1 && parts[0] == "zone" && parts[n] in ["entered", "cleared"])
            && ReadZoneTopic(topic) == (if n >= 2 && parts[0] == "zone" && parts[n] in ["entered", "cleared"]
                                        then Some(ZoneTopic(parts[1], parts[n] == "entered")) else None)
  {
    var parts := Split(topic);
    var e, c := ZoneVerb(true), ZoneVerb(false);
    JoinSplit(topic);
    StartsWithSegment(parts, "zone");
    assert "zone" + "/" == "zone/" && "/" + e == "/entered" && "/" + c == "/cleared" && e[0] != c[0];
    EndsInSegment(parts, e);
    EndsInSegment(parts, c);
  }

  // --- Canonical form ----------------------------------------------------------

  lemma CanonicalizeTwice(s: string)
    ensures Canonicalize(Canonicalize(s)) == Canonicalize(s)
  {
    if "robot-" <= s {
      assert Canonicalize(s)[5] == '/' != "robot-"[5];
    }
  }

  // Canonicalisation is idempotent, and a validated topic validates to itself.
  lemma CanonicalFixpoint(s: string)
    ensures Canonicalize(Canonicalize(s)) == Canonicalize(s)
    ensures TryNewTopic(s).Success? ==> TryNewTopic(TryNewTopic(s).value) == TryNewTopic(s)
    ensures TryNewPattern(s).Success? ==> Canonicalize(TryNewPattern(s).value) == TryNewPattern(s).value
  {
    CanonicalizeTwice(s);
    var canon := Canonicalize(s);
    TopicOfCanonical(s, canon);
    TopicOfCanonical(canon, canon);
  }

  // The validator looks at the canonical form only.
  lemma TopicOfCanonical(s: string, canon: string)
    requires canon == Canonicalize(s)
    ensures TryNewTopic(s) == if s == "" then Failure(Empty)
                              else if MatchesOneOf(Split(canon)) then Success(canon) else Failure(UnknownPattern)
    ensures canon == "" <==> s == ""
    ensures TryNewPattern(s).Success? ==> TryNewPattern(s).value == canon
  {
  }

  // The two spellings of a robot id name the same topic.
  lemma HyphenAndSlashAgree(rest: string)
    ensures Canonicalize("robot-" + rest) == "robot/" + rest
    ensures TryNewTopic("robot-" + rest) == TryNewTopic("robot/" + rest)
  {
    var hyphen, slash := "robot-" + rest, "robot/" + rest;
    assert hyphen[|"robot-"|..] == rest;
    CanonicalizeTwice(hyphen);
    TopicOfCanonical(hyphen, slash);
    TopicOfCanonical(slash, slash);
  }

  // --- Builders and readers ------------------------------------------------------

  lemma JoinedIsCanonical(parts: seq<string>)
    requires Segments(parts) && |parts| > 1 && '-' !in parts[0]
    ensures Canonicalize(Join(parts)) == Join(parts) != ""
  {
    var s, p := Join(parts), parts[0];
    var tail := Join(parts[1..]);
    assert s == p + "/" + tail;
    NoLegacyPrefix(p, tail);
  }

  lemma NoLegacyPrefix(p: string, tail: string)
    requires '-' !in p && SlashFree(p)
    ensures !("robot-" <= p + "/" + tail)
  {
    var s, prefix := p + "/" + tail, "robot-";
    assert s[|p|] == '/' && s[..|p|] == p;
    assert prefix[5] == '-' && SlashFree(prefix);
    assert |p| > 5 ==> s[5] == p[5] != '-';
  }

  // A joined path whose first segment has no hyphen is canonical already, so the match
  // table alone decides whether it is a topic.
  lemma JoinedIsTopic(parts: seq<string>)
    requires Segments(parts) && |parts| > 1 && '-' !in parts[0]
    ensures Split(Join(parts)) == parts
    ensures TryNewTopic(Join(parts)) == if MatchesOneOf(parts) then Success(Join(parts)) else Failure(UnknownPattern)
  {
    JoinedIsCanonical(parts);
    SplitJoin(parts);
  }

  // Every row of the topic table starts with a literal without a hyphen.
  lemma RowHead(k: nat)
    requires k < Size(Topics)
    ensures var row := TableRow(Topics, k); |row| > 1 && row[0].Some? && '-' !in row[0].value
  {
  }

  // Whatever is joined from the segments of a table row splits into them again and validates to
  // itself. Every builder below is an instance, for all slash-free ids.
  lemma JoinedRowIsTopic(k: nat, parts: seq<string>)
    requires k < Size(Topics) && Segments(parts) && RowMatches(TableRow(Topics, k), parts)
    ensures Split(Join(parts)) == parts && TryNewTopic(Join(parts)) == Success(Join(parts))
  {
    RowHead(k);
    assert parts[0] == TableRow(Topics, k)[0].value;
    MatchesSomeRow(Topics, 0, parts);
    JoinedIsTopic(parts);
  }

  lemma RobotLocalTopic(id: Id, res: Id)
    ensures Split(RobotLocal(id, res)) == ["robot", id, "local", res]
    ensures TryNewTopic(RobotLocal(id, res)) == Success(RobotLocal(id, res))
  {
    JoinedRowIsTopic(0, ["robot", id, "local", res]);
  }

  lemma LivelinessTopic(id: Id)
    ensures Split(LivelinessKey(id)) == ["robot", id, "client", "liveliness"]
    ensures TryNewTopic(LivelinessKey(id)) == Success(LivelinessKey(id))
  {
    JoinedRowIsTopic(6, ["robot", id, "client", "liveliness"]);
  }

  lemma RegistrationTopic(id: Id)
    ensures Split(RegistrationResponse(id)) == ["fleet", "registration", "response", id]
    ensures TryNewTopic(RegistrationResponse(id)) == Success(RegistrationResponse(id))
  {
    JoinedRowIsTopic(9, ["fleet", "registration", "response", id]);
  }

  lemma DeregistrationTopic(id: Id)
    ensures Split(DeregistrationResponse(id)) == ["fleet", "deregistration", "response", id]
    ensures TryNewTopic(DeregistrationResponse(id)) == Success(DeregistrationResponse(id))
  {
    JoinedRowIsTopic(10, ["fleet", "deregistration", "response", id]);
  }

  lemma HeartbeatTopic(id: Id)
    ensures Split(HeartbeatAlert(id)) == ["fleet", "alerts", "heartbeat", id]
    ensures TryNewTopic(HeartbeatAlert(id)) == Success(HeartbeatAlert(id))
  {
    JoinedRowIsTopic(11, ["fleet", "alerts", "heartbeat", id]);
  }

  lemma StopTopic(id: Id)
    ensures Split(StopCmd(id)) == ["stop", id, "cmd"]
    ensures TryNewTopic(StopCmd(id)) == Success(StopCmd(id))
  {
    JoinedRowIsTopic(13, ["stop", id, "cmd"]);
  }

  lemma ZoneEnteredTopic(id: Id)
    ensures Split(ZoneEntered(id)) == ["zone", id, "entered"]
    ensures TryNewTopic(ZoneEntered(id)) == Success(ZoneEntered(id))
  {
    JoinedRowIsTopic(15, ["zone", id, "entered"]);
  }

  lemma ZoneClearedTopic(id: Id)
    ensures Split(ZoneCleared(id)) == ["zone", id, "cleared"]
    ensures TryNewTopic(ZoneCleared(id)) == Success(ZoneCleared(id))
  {
    JoinedRowIsTopic(16, ["zone", id, "cleared"]);
  }

  lemma ZoneTopicEnds(id: Id, verb: Id, other: Id)
    requires |other| == |verb|
    ensures StartsWith(Join(["zone", id, verb]), "zone/")
    ensures EndsWith(Join(["zone", id, verb]), "/" + other) <==> other == verb
  {
    var parts: seq<string> := ["zone", id, verb];
    assert parts[1..] == [id, verb] && parts[1..][1..] == [verb];
    assert Join([verb]) == verb;
    assert Join([id, verb]) == id + "/" + verb;
    var s := Join(parts);
    assert s == "zone" + "/" + (id + "/" + verb);
    assert s[|s| - |verb| - 1..] == "/" + verb;
    assert ("/" + verb)[1..] == verb && ("/" + other)[1..] == other;
  }

  // The readers recover exactly what the builders were given, and the verb with it.
  lemma LivelinessReaderInverts(id: Id)
    ensures LivelinessRobot(LivelinessKey(id)) == Some(id)
  {
    LivelinessTopic(id);
  }

  lemma ZoneReaderInverts(id: Id)
    ensures ReadZoneTopic(ZoneEntered(id)) == Some(ZoneTopic(id, true))
    ensures ReadZoneTopic(ZoneCleared(id)) == Some(ZoneTopic(id, false))
  {
    ZoneVerbRead(id, true);
    ZoneVerbRead(id, false);
  }

  function ZoneVerb(entered: bool): (r: Id) {
    if entered then "entered" else "cleared"
  }

  lemma ZoneVerbRead(id: Id, entered: bool)
    ensures ReadZoneTopic(Join(["zone", id, ZoneVerb(entered)])) == Some(ZoneTopic(id, entered))
  {
    var topic := Join(["zone", id, ZoneVerb(entered)]);
    ZoneVerbEnds(id, entered, topic);
    SplitThree("zone", id, ZoneVerb(entered));
  }

  lemma ZoneVerbEnds(id: Id, entered: bool, topic: string)
    requires topic == Join(["zone", id, ZoneVerb(entered)])
    ensures StartsWith(topic, "zone/")
    ensures EndsWith(topic, "/entered") <==> entered
    ensures EndsWith(topic, "/cleared") <==> !entered
  {
    var e, c := ZoneVerb(true), ZoneVerb(false);
    assert "/" + e == "/entered" && "/" + c == "/cleared" && e[0] != c[0];
    ZoneTopicEnds(id, ZoneVerb(entered), e);
    ZoneTopicEnds(id, ZoneVerb(entered), c);
  }

  lemma SplitThree(a: Id, b: Id, c: Id)
    ensures Split(Join([a, b, c])) == [a, b, c]
  {
    SplitJoin([a, b, c]);
  }

  // A robot-local sample is never mistaken for a zone event, whatever the resource is called.
  lemma RobotLocalIsNotZoneTopic(id: Id, res: Id)
    ensures !IsZoneTopic(RobotLocal(id, res))
  {
    assert RobotLocal(id, res)[0] == "robot"[0] == 'r';
    assert "zone/"[0] == 'z';
  }

  // Each robot has its own response and alert topics, and the three families are disjoint.
  lemma ResponseTopicsDistinct(a: Id, b: Id)
    ensures RegistrationResponse(a) == RegistrationResponse(b) ==> a == b
    ensures HeartbeatAlert(a) == HeartbeatAlert(b) ==> a == b
    ensures RegistrationResponse(a) != DeregistrationResponse(b)
    ensures RegistrationResponse(a) != HeartbeatAlert(b)
    ensures DeregistrationResponse(a) != HeartbeatAlert(b)
  {
    FleetSecond(a, b, 0, 0);
    FleetSecond(a, b, 2, 2);
    FleetSecond(a, b, 0, 1);
    FleetSecond(a, b, 0, 2);
    FleetSecond(a, b, 1, 2);
  }

  // The three per-robot fleet topics by family.
  function FleetPath(id: Id, family: nat): (r: string) {
    if family == 0 then RegistrationResponse(id)
    else if family == 1 then DeregistrationResponse(id)
    else HeartbeatAlert(id)
  }

  lemma FleetSegments(id: Id, family: nat)
    ensures var parts := Split(FleetPath(id, family));
            && |parts| == 4 && parts[3] == id
            && parts[1] == if family == 0 then "registration" else if family == 1 then "deregistration" else "alerts"
  {
    if family == 0 {
      RegistrationTopic(id);
    } else if family == 1 {
      DeregistrationTopic(id);
    } else {
      HeartbeatTopic(id);
    }
  }

  lemma FleetSecond(a: Id, b: Id, f: nat, g: nat)
    requires f < 3 && g < 3
    ensures FleetPath(a, f) == FleetPath(b, g) ==> f == g && a == b
  {
    FleetSegments(a, f);
    FleetSegments(b, g);
    assert "registration"[0] == 'r' && "deregistration"[0] == 'd' && "alerts"[0] == 'a';
  }

  // --- Topics as patterns ----------------------------------------------------------

  ghost predicate NoWildcardSegment(parts: seq<string>) {
    forall p :: p in parts ==> !IsWildcard(p)
  }

  ghost predicate InnerSegmentsNonEmpty(parts: seq<string>) {
    forall i :: 0 < i < |parts| - 1 ==> parts[i] != ""
  }

  // Exactly which valid topics can be subscribed to verbatim: those with no empty inner
  // segment whose wildcards, if any, form one of the known shapes.
  lemma TopicAsPattern(s: string)
    requires TryNewTopic(s).Success?
    ensures var t := TryNewTopic(s).value; var parts := Split(t);
            TryNewPattern(t) == (if InnerSegmentsNonEmpty(parts) && (NoWildcardSegment(parts) || WildcardShape(parts))
                                 then Success(t) else Failure(UnknownPattern))
  {
    var t := TryNewTopic(s).value;
    CanonicalFixpoint(s);
    JoinSplit(t);
    DoubleSlashIffEmptyInner(Split(t));
    PatternDecision(t);
  }

  // The leading conditions of `Pattern::try_new` come down to `//`.
  lemma PatternDecision(t: string)
    requires t != ""
    ensures TryNewPattern(t) ==
            if HasDoubleSlash(t) || !IsValidPattern(Split(Canonicalize(t))) then Failure(UnknownPattern)
            else Success(Canonicalize(t))
  {
    RulesetPatternHasNoDoubleSlash();
  }

  ghost predicate OnSomeRow(t: Table, parts: seq<string>) {
    exists k :: 0 <= k < Size(t) && RowMatches(TableRow(t, k), parts)
  }

  // Exactly which strings are patterns: no empty inner segment, and in canonical form either a
  // wildcard shape or a topic without wildcards.
  lemma PatternsAccepted(s: string)
    ensures var parts := Split(Canonicalize(s));
            TryNewPattern(s).Success? <==>
            && s != "" && InnerSegmentsNonEmpty(Split(s))
            && (OnSomeRow(Wildcards, parts) || (NoWildcardSegment(parts) && OnSomeRow(Topics, parts)))
  {
    if s != "" {
      var parts := Split(Canonicalize(s));
      JoinSplit(s);
      DoubleSlashIffEmptyInner(Split(s));
      PatternDecision(s);
      MatchesSomeRow(Wildcards, 0, parts);
      MatchesSomeRow(Topics, 0, parts);
    }
  }

  lemma RulesetPatternHasNoDoubleSlash()
    ensures !HasDoubleSlash("fleet/*/ruleset/**")
  {
  }

  lemma RobotLocalIsNoWildcardShape(id: Id, res: Id)
    ensures !WildcardShape(["robot", id, "local", res])
  {
    var parts: seq<string> := ["robot", id, "local", res];
    MatchesSomeRow(Wildcards, 0, parts);
    forall k: nat | k < Size(Wildcards) ensures !RowMatches(TableRow(Wildcards, k), parts) {
      var row := TableRow(Wildcards, k);
      if |row| == 4 {
        assert row[2] in [Some("client"), Some("signal"), Some("ruleset")];
        assert "client"[0] == 'c' && "signal"[0] == 's' && "ruleset"[0] == 'r' && "local"[0] == 'l';
      }
    }
  }

  lemma FourSegments(a: string, b: string, c: string, d: string)
    ensures InnerSegmentsNonEmpty([a, b, c, d]) <==> b != "" && c != ""
    ensures NoWildcardSegment([a, b, c, d]) <==> !IsWildcard(a) && !IsWildcard(b) && !IsWildcard(c) && !IsWildcard(d)
  {
    var parts := [a, b, c, d];
    assert parts[1] == b && parts[2] == c;
    assert forall p :: p in parts <==> p == a || p == b || p == c || p == d;
  }

  // A compiled trigger topic can be subscribed to unless the robot id is empty or a wildcard.
  lemma RobotLocalAsPattern(id: Id, res: Id)
    requires !IsWildcard(res)
    ensures TryNewPattern(RobotLocal(id, res)).Success? <==> id != "" && !IsWildcard(id)
  {
    RobotLocalTopic(id, res);
    TopicAsPattern(RobotLocal(id, res));
    RobotLocalIsNoWildcardShape(id, res);
    FourSegments("robot", id, "local", res);
    assert "robot"[0] == 'r' && "local"[0] == 'l';
  }
}
