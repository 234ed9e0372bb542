/** The start-request payload: append_start_request and read_start_request undo each other. */
module StartRequest {
  import opened Wrappers
  import opened Bytes
  import opened FieldCodec

  const START_SCHEMA := 2
  const CONFIG_SCHEMA := 2

  datatype Mode = Existing | Create
  datatype FailureAction = Skip | Restart | Reboot
  datatype LogMode = Split | Combined

  datatype Launch = Launch(
    name: Text, cwd: Text, executable: Text, args: seq<Text>,
    killTimeout: int, runAs: Text, envVars: seq<Text>, dependsOn: seq<Text>)

  datatype Supervision = Supervision(
    startTimeout: int, failureAction: FailureAction, daemon: bool, heartbeatTimeout: int, oomScoreAdj: int, pty: bool)

  datatype Logging = Logging(mode: LogMode, dir: Text, fileName: Text, maxSizeKb: int, archiveCount: int)

  datatype Restarting = Restarting(delay: int, maxDelay: int, window: int, maxAttempts: int, resetAfter: int)

  /** prog_cfg_t in wire order, without the collected environment, which does not travel. */
  datatype Config = Config(launch: Launch, supervision: Supervision, logging: Logging, restarting: Restarting)

  datatype Head = Head(mode: Mode, name: Text)
  datatype Tail = Tail(inheritedEnv: seq<Text>, showLog: bool)
  datatype Request = Request(head: Head, config: Config, tail: Tail)

  function ActionCode(a: FailureAction): int {
    match a
    case Skip => 0
    case Restart => 1
    case Reboot => 2
  }

  function ActionOf(code: int): (a: FailureAction)
    ensures 0 <= code <= 2 ==> ActionCode(a) == code
  {
    if code == 0 then Skip else if code == 1 then Restart else Reboot
  }

  // ----- Schema, mode, name, and the schema of the configuration

  const HEAD_SHAPE := [AnInt, AnInt, AStr, AnInt]

  function HeadFields(x: Head): (fs: seq<Field>)
    ensures HasShape(fs, HEAD_SHAPE)
  {
    [Int(START_SCHEMA), Int(if x.mode == Existing then 0 else 1), Str(x.name), Int(CONFIG_SCHEMA)]
  }

  function ReadHead(b: seq<Byte>): Option<(Head, seq<Byte>)> {
    var (f, rest) :- GetAll(HEAD_SHAPE, b);
    PutGetAll(HEAD_SHAPE, b);
    if f[0].i == START_SCHEMA && 0 <= f[1].i <= 1 && f[3].i == CONFIG_SCHEMA
    then Some((Head(if f[1].i == 0 then Existing else Create, f[2].s), rest))
    else None
  }

  lemma HeadReadWritten(x: Head, rest: seq<Byte>)
    requires AllReadable(HeadFields(x))
    ensures ReadHead(PutAll(HeadFields(x)) + rest) == Some((x, rest))
  {
    GetPutAll(HeadFields(x), HEAD_SHAPE, rest);
  }

  lemma HeadWrittenRead(b: seq<Byte>)
    requires ReadHead(b).Some?
    ensures var (x, rest) := ReadHead(b).value;
      AllReadable(HeadFields(x)) && b == PutAll(HeadFields(x)) + rest
  {
    PutGetAll(HEAD_SHAPE, b);
    var (f, rest) := GetAll(HEAD_SHAPE, b).value;
    assert HeadFields(ReadHead(b).value.0) == f;
  }

  // ----- What to launch

  const LAUNCH_SHAPE := [AStr, AStr, AStr, AList, AnInt, AStr, AList, AList]

  function LaunchFields(x: Launch): (fs: seq<Field>)
    ensures HasShape(fs, LAUNCH_SHAPE)
  {
    [Str(x.name), Str(x.cwd), Str(x.executable), List(x.args),
     Int(x.killTimeout), Str(x.runAs), List(x.envVars), List(x.dependsOn)]
  }

  function ReadLaunch(b: seq<Byte>): Option<(Launch, seq<Byte>)> {
    var (f, rest) :- GetAll(LAUNCH_SHAPE, b);
    PutGetAll(LAUNCH_SHAPE, b);
    Some((Launch(f[0].s, f[1].s, f[2].s, f[3].l, f[4].i, f[5].s, f[6].l, f[7].l), rest))
  }

  lemma LaunchReadWritten(x: Launch, rest: seq<Byte>)
    requires AllReadable(LaunchFields(x))
    ensures ReadLaunch(PutAll(LaunchFields(x)) + rest) == Some((x, rest))
  {
    GetPutAll(LaunchFields(x), LAUNCH_SHAPE, rest);
  }

  lemma LaunchWrittenRead(b: seq<Byte>)
    requires ReadLaunch(b).Some?
    ensures var (x, rest) := ReadLaunch(b).value;
      AllReadable(LaunchFields(x)) && b == PutAll(LaunchFields(x)) + rest
  {
    PutGetAll(LAUNCH_SHAPE, b);
    var (f, rest) := GetAll(LAUNCH_SHAPE, b).value;
    assert LaunchFields(ReadLaunch(b).value.0) == f;
  }

  // ----- How to supervise it

  const SUPERVISION_SHAPE := [AnInt, AnInt, AFlag, AnInt, AnInt, AFlag]

  function SupervisionFields(x: Supervision): (fs: seq<Field>)
    ensures HasShape(fs, SUPERVISION_SHAPE)
  {
    [Int(x.startTimeout), Int(ActionCode(x.failureAction)), Flag(x.daemon),
     Int(x.heartbeatTimeout), Int(x.oomScoreAdj), Flag(x.pty)]
  }

  function SupervisionOf(f: seq<Field>): (x: Supervision)
    requires HasShape(f, SUPERVISION_SHAPE)
    ensures 0 <= f[1].i <= 2 ==> SupervisionFields(x) == f
  {
    Supervision(f[0].i, ActionOf(f[1].i), f[2].b, f[3].i, f[4].i, f[5].b)
  }

  function ReadSupervision(b: seq<Byte>): Option<(Supervision, seq<Byte>)> {
    var (f, rest) :- GetAll(SUPERVISION_SHAPE, b);
    PutGetAll(SUPERVISION_SHAPE, b);
    if 0 <= f[1].i <= 2 then Some((SupervisionOf(f), rest)) else None
  }

  lemma SupervisionReadWritten(x: Supervision, rest: seq<Byte>)
    requires AllReadable(SupervisionFields(x))
    ensures ReadSupervision(PutAll(SupervisionFields(x)) + rest) == Some((x, rest))
  {
    GetPutAll(SupervisionFields(x), SUPERVISION_SHAPE, rest);
  }

  lemma SupervisionWrittenRead(b: seq<Byte>)
    requires ReadSupervision(b).Some?
    ensures var (x, rest) := ReadSupervision(b).value;
      AllReadable(SupervisionFields(x)) && b == PutAll(SupervisionFields(x)) + rest
  {
    PutGetAll(SUPERVISION_SHAPE, b);
  }

  // ----- Where its output goes

  const LOGGING_SHAPE := [AnInt, AStr, AStr, AnInt, AnInt]

  function LoggingFields(x: Logging): (fs: seq<Field>)
    ensures HasShape(fs, LOGGING_SHAPE)
  {
    [Int(if x.mode == Split then 0 else 1), Str(x.dir), Str(x.fileName), Int(x.maxSizeKb), Int(x.archiveCount)]
  }

  function ReadLogging(b: seq<Byte>): Option<(Logging, seq<Byte>)> {
    var (f, rest) :- GetAll(LOGGING_SHAPE, b);
    PutGetAll(LOGGING_SHAPE, b);
    if 0 <= f[0].i <= 1
    then Some((Logging(if f[0].i == 0 then Split else Combined, f[1].s, f[2].s, f[3].i, f[4].i), rest))
    else None
  }

  lemma LoggingReadWritten(x: Logging, rest: seq<Byte>)
    requires AllReadable(LoggingFields(x))
    ensures ReadLogging(PutAll(LoggingFields(x)) + rest) == Some((x, rest))
  {
    GetPutAll(LoggingFields(x), LOGGING_SHAPE, rest);
  }

  lemma LoggingWrittenRead(b: seq<Byte>)
    requires ReadLogging(b).Some?
    ensures var (x, rest) := ReadLogging(b).value;
      AllReadable(LoggingFields(x)) && b == PutAll(LoggingFields(x)) + rest
  {
    PutGetAll(LOGGING_SHAPE, b);
    var (f, rest) := GetAll(LOGGING_SHAPE, b).value;
    assert LoggingFields(ReadLogging(b).value.0) == f;
  }

  // ----- When to restart it

  const RESTARTING_SHAPE := [AnInt, AnInt, AnInt, AnInt, AnInt]

  function RestartingFields(x: Restarting): (fs: seq<Field>)
    ensures HasShape(fs, RESTARTING_SHAPE)
  {
    [Int(x.delay), Int(x.maxDelay), Int(x.window), Int(x.maxAttempts), Int(x.resetAfter)]
  }

  function ReadRestarting(b: seq<Byte>): Option<(Restarting, seq<Byte>)> {
    var (f, rest) :- GetAll(RESTARTING_SHAPE, b);
    PutGetAll(RESTARTING_SHAPE, b);
    Some((Restarting(f[0].i, f[1].i, f[2].i, f[3].i, f[4].i), rest))
  }

  lemma RestartingReadWritten(x: Restarting, rest: seq<Byte>)
    requires AllReadable(RestartingFields(x))
    ensures ReadRestarting(PutAll(RestartingFields(x)) + rest) == Some((x, rest))
  {
    GetPutAll(RestartingFields(x), RESTARTING_SHAPE, rest);
  }

  lemma RestartingWrittenRead(b: seq<Byte>)
    requires ReadRestarting(b).Some?
    ensures var (x, rest) := ReadRestarting(b).value;
      AllReadable(RestartingFields(x)) && b == PutAll(RestartingFields(x)) + rest
  {
    PutGetAll(RESTARTING_SHAPE, b);
    var (f, rest) := GetAll(RESTARTING_SHAPE, b).value;
    assert RestartingFields(ReadRestarting(b).value.0) == f;
  }

  // ----- The caller's environment and whether to show the log

  const TAIL_SHAPE := [AList, AFlag]

  function TailFields(x: Tail): (fs: seq<Field>)
    ensures HasShape(fs, TAIL_SHAPE)
  {
    [List(x.inheritedEnv), Flag(x.showLog)]
  }

  function ReadTail(b: seq<Byte>): Option<(Tail, seq<Byte>)> {
    var (f, rest) :- GetAll(TAIL_SHAPE, b);
    PutGetAll(TAIL_SHAPE, b);
    Some((Tail(f[0].l, f[1].b), rest))
  }

  lemma TailReadWritten(x: Tail, rest: seq<Byte>)
    requires AllReadable(TailFields(x))
    ensures ReadTail(PutAll(TailFields(x)) + rest) == Some((x, rest))
  {
    GetPutAll(TailFields(x), TAIL_SHAPE, rest);
  }

  lemma TailWrittenRead(b: seq<Byte>)
    requires ReadTail(b).Some?
    ensures var (x, rest) := ReadTail(b).value;
      AllReadable(TailFields(x)) && b == PutAll(TailFields(x)) + rest
  {
    PutGetAll(TAIL_SHAPE, b);
    var (f, rest) := GetAll(TAIL_SHAPE, b).value;
    assert TailFields(ReadTail(b).value.0) == f;
  }

  // ----- What a create request must satisfy

  const EQUALS: Byte := 0x3D
  // "PM_TINY_"
  const RESERVED: Text := [0x50, 0x4D, 0x5F, 0x54, 0x49, 0x4E, 0x59, 0x5F]

  predicate EnvEntryOk(e: Text) {
    e != [] && e[0] != EQUALS && EQUALS in e && !(RESERVED <= e)
  }

  /** validate_start_config. */
  predicate ConfigOk(c: Config) {
    && c.launch.name != [] && c.launch.cwd != [] && c.launch.executable != []
    && c.launch.killTimeout >= 1
    && -1000 <= c.supervision.oomScoreAdj <= 1000
    && c.restarting.delay >= 0 && c.restarting.maxDelay >= c.restarting.delay && c.restarting.window >= 1
    && c.restarting.maxAttempts >= 0 && c.restarting.resetAfter >= 0
    && 1 <= c.logging.maxSizeKb <= 1048576 && 0 <= c.logging.archiveCount <= 100
    && !(c.supervision.pty && c.logging.mode == Split)
    && forall k :: 0 <= k < |c.launch.envVars| ==> EnvEntryOk(c.launch.envVars[k])
  }

  // ----- The codec

  predicate RequestWritable(r: Request) {
    AllWritable(HeadFields(r.head)) && ConfigWritable(r.config) && AllWritable(TailFields(r.tail))
  }

  predicate ConfigReadable(c: Config) {
    && AllReadable(LaunchFields(c.launch)) && AllReadable(SupervisionFields(c.supervision))
    && AllReadable(LoggingFields(c.logging)) && AllReadable(RestartingFields(c.restarting))
  }

  predicate ConfigWritable(c: Config) {
    && AllWritable(LaunchFields(c.launch)) && AllWritable(SupervisionFields(c.supervision))
    && AllWritable(LoggingFields(c.logging)) && AllWritable(RestartingFields(c.restarting))
  }

  /** append_prog_cfg, in front of what follows. */
  function ConfigBytes(c: Config, rest: seq<Byte>): seq<Byte>
    requires ConfigWritable(c)
  {
    PutAll(LaunchFields(c.launch)) +
    (PutAll(SupervisionFields(c.supervision)) +
    (PutAll(LoggingFields(c.logging)) +
    (PutAll(RestartingFields(c.restarting)) + rest)))
  }

  function RequestBytes(r: Request): seq<Byte>
    requires RequestWritable(r)
  {
    PutAll(HeadFields(r.head)) + ConfigBytes(r.config, PutAll(TailFields(r.tail)) + [])
  }

  /** append_start_request: None where a string or a list is too long to be written. */
  function Append(payload: seq<Byte>, r: Request): Option<seq<Byte>> {
    if RequestWritable(r) then Some(payload + RequestBytes(r)) else None
  }

  /** read_prog_cfg, after its schema. */
  function ReadConfig(b: seq<Byte>): Option<(Config, seq<Byte>)> {
    var (launch, b1) :- ReadLaunch(b);
    var (supervision, b2) :- ReadSupervision(b1);
    var (logging, b3) :- ReadLogging(b2);
    var (restarting, b4) :- ReadRestarting(b3);
    Some((Config(launch, supervision, logging, restarting), b4))
  }

  function ReadFields(payload: seq<Byte>): Option<(Request, seq<Byte>)> {
    var (head, b1) :- ReadHead(payload);
    var (config, b2) :- ReadConfig(b1);
    var (tail, b3) :- ReadTail(b2);
    Some((Request(head, config, tail), b3))
  }

  /** read_start_request: None where it throws. */
  function Read(payload: seq<Byte>): Option<Request> {
    var (r, rest) :- ReadFields(payload);
    if rest != [] || r.head.name == [] || (r.head.mode == Create && !ConfigOk(r.config)) then None else Some(r)
  }

  /** The reader admits fewer list items than the writer. */
  predicate Limited(r: Request) {
    && |r.config.launch.args| <= MAX_ITEMS && |r.config.launch.envVars| <= MAX_ITEMS
    && |r.config.launch.dependsOn| <= MAX_ITEMS && |r.tail.inheritedEnv| <= MAX_ITEMS
  }

  lemma ConfigReadWritten(c: Config, rest: seq<Byte>)
    requires ConfigReadable(c)
    ensures ConfigWritable(c) && ReadConfig(ConfigBytes(c, rest)) == Some((c, rest))
  {
    var b3 := PutAll(RestartingFields(c.restarting)) + rest;
    var b2 := PutAll(LoggingFields(c.logging)) + b3;
    var b1 := PutAll(SupervisionFields(c.supervision)) + b2;
    LaunchReadWritten(c.launch, b1);
    SupervisionReadWritten(c.supervision, b2);
    LoggingReadWritten(c.logging, b3);
    RestartingReadWritten(c.restarting, rest);
  }

  lemma ConfigWrittenRead(b: seq<Byte>)
    requires ReadConfig(b).Some?
    ensures var (c, rest) := ReadConfig(b).value; ConfigReadable(c) && ConfigWritable(c) && b == ConfigBytes(c, rest)
  {
    LaunchWrittenRead(b);
    var b1 := ReadLaunch(b).value.1;
    SupervisionWrittenRead(b1);
    var b2 := ReadSupervision(b1).value.1;
    LoggingWrittenRead(b2);
    RestartingWrittenRead(ReadLogging(b2).value.1);
  }

  /** A written configuration is readable unless its launch part has a list that is too long. */
  lemma ConfigLimits(c: Config)
    requires ConfigWritable(c)
    ensures ConfigReadable(c) <==> AllReadable(LaunchFields(c.launch))
    ensures AllReadable(LaunchFields(c.launch)) <==>
      |c.launch.args| <= MAX_ITEMS && |c.launch.envVars| <= MAX_ITEMS && |c.launch.dependsOn| <= MAX_ITEMS
  {
    var launch := LaunchFields(c.launch);
    if AllReadable(launch) { assert Readable(launch[3]) && Readable(launch[6]) && Readable(launch[7]); }
  }

  lemma TailLimits(x: Tail)
    requires AllWritable(TailFields(x))
    ensures AllReadable(TailFields(x)) <==> |x.inheritedEnv| <= MAX_ITEMS
  {
    if AllReadable(TailFields(x)) { assert Readable(TailFields(x)[0]); }
  }

  predicate Acceptable(r: Request) {
    r.head.name != [] && (r.head.mode == Create ==> ConfigOk(r.config)) && Limited(r)
  }

  /** Every accepted payload is the encoding of the request read from it. */
  lemma AppendOfRead(payload: seq<Byte>)
    requires Read(payload).Some?
    ensures Append([], Read(payload).value) == Some(payload)
    ensures Acceptable(Read(payload).value)
  {
    var r := Read(payload).value;
    HeadWrittenRead(payload);
    var b1 := ReadHead(payload).value.1;
    ConfigWrittenRead(b1);
    TailWrittenRead(ReadConfig(b1).value.1);
    ConfigLimits(r.config);
    TailLimits(r.tail);
    assert [] + RequestBytes(r) == RequestBytes(r);
  }

  lemma LaunchTooLong(c: Config, rest: seq<Byte>)
    requires ConfigWritable(c) && !AllReadable(LaunchFields(c.launch))
    ensures ReadConfig(ConfigBytes(c, rest)) == None
  {
    RefusesTooLong(LaunchFields(c.launch), LAUNCH_SHAPE,
      PutAll(SupervisionFields(c.supervision)) + (PutAll(LoggingFields(c.logging)) +
      (PutAll(RestartingFields(c.restarting)) + rest)));
  }

  lemma TailTooLong(x: Tail, rest: seq<Byte>)
    requires AllWritable(TailFields(x)) && !AllReadable(TailFields(x))
    ensures ReadTail(PutAll(TailFields(x)) + rest) == None
  {
    RefusesTooLong(TailFields(x), TAIL_SHAPE, rest);
  }

  /** A written request is read back exactly when the reader's limits admit it; otherwise it is
      refused, never misread. */
  lemma ReadOfAppend(r: Request)
    requires Append([], r).Some?
    ensures Read(Append([], r).value) == if Acceptable(r) then Some(r) else None
  {
    var tail := PutAll(TailFields(r.tail)) + [];
    assert [] + RequestBytes(r) == RequestBytes(r);
    HeadReadWritten(r.head, ConfigBytes(r.config, tail));
    ConfigLimits(r.config);
    TailLimits(r.tail);
    if !AllReadable(LaunchFields(r.config.launch)) {
      LaunchTooLong(r.config, tail);
    } else {
      ConfigReadWritten(r.config, tail);
      if AllReadable(TailFields(r.tail)) { TailReadWritten(r.tail, []); } else { TailTooLong(r.tail, []); }
    }
  }

  /** A request with one argument too many is written but not read back. */
  lemma OneArgumentTooMany() returns (r: Request)
    ensures Append([], r).Some? && Read(Append([], r).value) == None
  {
    var args: seq<Text> := seq(MAX_ITEMS + 1, _ => []);
    var launch := Launch([0x61], [0x2F], [0x61], args, 1, [], [], []);
    var config := Config(launch, Supervision(0, Skip, false, 0, 0, false), Logging(Split, [], [], 1, 0),
      Restarting(0, 0, 1, 0, 0));
    r := Request(Head(Create, [0x61]), config, Tail([], false));
    ReadOfAppend(r);
  }

  // ----- The wire format and the checks, written out

  /** All fields of a request in the order in which they travel. */
  function AllFields(r: Request): seq<Field> {
    var (l, s, g, a) := (r.config.launch, r.config.supervision, r.config.logging, r.config.restarting);
    [Int(2), Int(if r.head.mode == Create then 1 else 0), Str(r.head.name), Int(2)] +
    ([Str(l.name), Str(l.cwd), Str(l.executable), List(l.args), Int(l.killTimeout), Str(l.runAs),
      List(l.envVars), List(l.dependsOn)] +
    ([Int(s.startTimeout), Int(if s.failureAction == Reboot then 2 else if s.failureAction == Restart then 1 else 0),
      Flag(s.daemon), Int(s.heartbeatTimeout), Int(s.oomScoreAdj), Flag(s.pty)] +
    ([Int(if g.mode == Combined then 1 else 0), Str(g.dir), Str(g.fileName), Int(g.maxSizeKb), Int(g.archiveCount)] +
    ([Int(a.delay), Int(a.maxDelay), Int(a.window), Int(a.maxAttempts), Int(a.resetAfter)] +
     [List(r.tail.inheritedEnv), Flag(r.tail.showLog)]))))
  }

  lemma WireOrder(r: Request)
    requires RequestWritable(r)
    ensures AllWritable(AllFields(r)) && RequestBytes(r) == PutAll(AllFields(r))
  {
    var tail := TailFields(r.tail);
    ConfigOrder(r.config, tail);
    PutAllAppend(HeadFields(r.head), ConfigFields(r.config, tail));
    assert PutAll(tail) + [] == PutAll(tail);
  }

  function ConfigFields(c: Config, tail: seq<Field>): seq<Field> {
    LaunchFields(c.launch) + (SupervisionFields(c.supervision) +
    (LoggingFields(c.logging) + (RestartingFields(c.restarting) + tail)))
  }

  lemma ConfigOrder(c: Config, tail: seq<Field>)
    requires ConfigWritable(c) && AllWritable(tail)
    ensures AllWritable(ConfigFields(c, tail)) && ConfigBytes(c, PutAll(tail)) == PutAll(ConfigFields(c, tail))
  {
    var f4 := RestartingFields(c.restarting) + tail;
    var f3 := LoggingFields(c.logging) + f4;
    var f2 := SupervisionFields(c.supervision) + f3;
    PutAllAppend(RestartingFields(c.restarting), tail);
    PutAllAppend(LoggingFields(c.logging), f4);
    PutAllAppend(SupervisionFields(c.supervision), f3);
    PutAllAppend(LaunchFields(c.launch), f2);
  }

  /** An environment entry has a name and an equals sign, and the name does not begin with PM_TINY_. */
  ghost predicate NamesVariable(e: Text) {
    && |e| >= 2 && e[0] != 0x3D && (exists k :: 0 < k < |e| && e[k] == 0x3D)
    && (|e| >= 8 ==> e[..8] != [0x50, 0x4D, 0x5F, 0x54, 0x49, 0x4E, 0x59, 0x5F])
  }

  lemma EntryMeans(e: Text)
    ensures EnvEntryOk(e) <==> NamesVariable(e)
  {
    if EnvEntryOk(e) {
      var k :| 0 <= k < |e| && e[k] == EQUALS;
      assert 0 < k && e[k] == 0x3D;
    }
  }

  /** A written request is read back if and only if it passes every one of these checks; a request
      for an existing program is checked for its name and the lengths of its lists only. */
  lemma ReadIff(r: Request)
    requires Append([], r).Some?
    ensures var l, s, g, a := r.config.launch, r.config.supervision, r.config.logging, r.config.restarting;
      Read(Append([], r).value) == Some(r) <==>
        && |r.head.name| > 0
        && |l.args| <= 100000 && |l.envVars| <= 100000 && |l.dependsOn| <= 100000 && |r.tail.inheritedEnv| <= 100000
        && (r.head.mode == Create ==>
              && |l.name| > 0 && |l.cwd| > 0 && |l.executable| > 0
              && l.killTimeout >= 1
              && -1000 <= s.oomScoreAdj <= 1000
              && 0 <= a.delay <= a.maxDelay && a.window >= 1 && a.maxAttempts >= 0 && a.resetAfter >= 0
              && 1 <= g.maxSizeKb <= 1048576 && 0 <= g.archiveCount <= 100
              && (s.pty ==> g.mode == Combined)
              && forall k :: 0 <= k < |l.envVars| ==> NamesVariable(l.envVars[k]))
    ensures Read(Append([], r).value) in {None, Some(r)}
  {
    ReadOfAppend(r);
    var vars := r.config.launch.envVars;
    forall k | 0 <= k < |vars| ensures EnvEntryOk(vars[k]) <==> NamesVariable(vars[k]) {
      EntryMeans(vars[k]);
    }
  }

  /** So every accepted payload, read as a create request, has passed them. */
  lemma AcceptedPasses(payload: seq<Byte>)
    requires Read(payload).Some? && Read(payload).value.head.mode == Create
    ensures var c := Read(payload).value.config;
      && c.launch.killTimeout >= 1 && |c.launch.name| > 0 && |c.launch.cwd| > 0 && |c.launch.executable| > 0
      && -1000 <= c.supervision.oomScoreAdj <= 1000
      && 0 <= c.restarting.delay <= c.restarting.maxDelay && c.restarting.window >= 1
      && c.restarting.maxAttempts >= 0 && c.restarting.resetAfter >= 0
      && 1 <= c.logging.maxSizeKb <= 1048576 && 0 <= c.logging.archiveCount <= 100
      && (c.supervision.pty ==> c.logging.mode == Combined)
      && forall k :: 0 <= k < |c.launch.envVars| ==> NamesVariable(c.launch.envVars[k])
  {
    AppendOfRead(payload);
    ReadIff(Read(payload).value);
  }
}
