/**
 * The session kernel bridge: the object kernel-side code uses to print,
 * open comms with the host and request rich display.
 *
 * The bridge is an immutable value fixed at construction. Its collaborators
 * are abstracted into a World: posting an event to the host port appends it
 * to a log, adding a comm to the comm manager appends it to the registry, and
 * the manager's binding hook appends the bridge to a list of bindings. Every
 * operation takes the bridge and a world and returns the next world, so an
 * operation either fails and leaves the world as it was, or changes it by
 * exactly the entries its contract names.
 */
module KernelBridge {
  import opened Wrappers
  import opened JsValues
  import opened Decimal
  import opened VersionCode

  /** Opaque handle of the transport to the host process. */
  datatype HostPort = HostPort(id: nat)

  /** `{name, code}`; a code of None stands for the NaN of a malformed name. */
  datatype VersionRecord = VersionRecord(name: string, code: Option<nat>)

  /** The bridge's identity; each field is also the getter of the same name. */
  datatype Bridge = Bridge(taskId: string, version: VersionRecord, userName: string, hostPort: HostPort)

  datatype Event =
    | PrintEvent(taskId: string, items: seq<JsValue>)
    | DisplayDataEvent(taskId: string, content: JsValue)

  /** One `event.postTo(port)` call. */
  datatype Posting = Posting(port: HostPort, event: Event)

  /** What `SessionKernelComm.newFor` is given; the comm is opaque beyond its arguments. */
  datatype Comm = Comm(taskId: string, port: HostPort, targetName: JsValue, initialData: JsValue, metaData: JsValue)

  /** The collaborators' observable state. */
  datatype World = World(posted: seq<Posting>, registry: seq<Comm>, bindings: seq<Bridge>)

  datatype BridgeError =
    | MissingTargetName   // thrown by newCommFor
    | NotDisplayable      // thrown by display before any asynchronous step
    | ContentNotObject    // rejects the promise display returns

  /** The message each error carries. */
  function Message(e: BridgeError): (m: string) {
    match e
    case MissingTargetName => "A targetName (aka namespace) must be provided in order to open a new kernel comm."
    case NotDisplayable => "I can only display JupyterDisplayableMessage derived instances."
    case ContentNotObject => "I only know how '_toDisplay' objects or Promises that resolve to such."
  }

  /** The result of an operation together with the world it leaves behind. */
  datatype Outcome<+T> = Outcome(result: Result<T, BridgeError>, world: World)

  /** The bridge and the world once the constructor has returned. */
  datatype Construction = Construction(bridge: Bridge, world: World)

  /** The comm namespace `newComm` opens. */
  const DefaultTargetName: string := "jknb.comm"

  /** The constructor: fixes the identity and binds the bridge to the comm manager. */
  function NewBridge(taskId: string, versionName: string, buildNumber: nat, userName: string,
                     hostPort: HostPort, w: World): (c: Construction)
    ensures c.bridge.taskId == taskId && c.bridge.userName == userName && c.bridge.hostPort == hostPort
    ensures c.bridge.version.name == versionName + "." + ShowNat(buildNumber)
    ensures c.bridge.version.code.Some? <==> AllComponents(Split(versionName, '.'))
    ensures c.bridge.version.code.Some? ==>
      c.bridge.version.code.value
        == DecimalValue(ParseComponents(Split(versionName, '.')).value) * 1000 + buildNumber
    ensures c.world.posted == w.posted && c.world.registry == w.registry
    ensures c.world.bindings == w.bindings + [c.bridge]
  {
    var version := VersionRecord(versionName + "." + ShowNat(buildNumber),
                                 GetVersionCodeFrom(versionName, buildNumber));
    var bridge := Bridge(taskId, version, userName, hostPort);
    Construction(bridge, w.(bindings := w.bindings + [bridge]))
  }

  /** `print(...items)`: one print event when there is anything to print, nothing otherwise. */
  function Print(b: Bridge, items: seq<JsValue>, w: World): (w': World)
    ensures w' == w <==> |items| == 0
    ensures w'.registry == w.registry && w'.bindings == w.bindings
    ensures |w'.posted| == |w.posted| + (if |items| == 0 then 0 else 1)
    ensures w'.posted[..|w.posted|] == w.posted
    ensures |items| > 0 ==> w'.posted[|w.posted|] == Posting(b.hostPort, PrintEvent(b.taskId, items))
  {
    if |items| > 0 then
      w.(posted := w.posted + [Posting(b.hostPort, PrintEvent(b.taskId, items))])
    else
      w
  }

  /** The destructured argument of `newCommFor`; an absent property is Undefined. */
  datatype CommRequest = CommRequest(targetName: JsValue, initialData: JsValue, metaData: JsValue)

  /**
   * `newCommFor({targetName, initialData, metaData})`: refuses a falsy target
   * name, defaults falsy data to `{}`, and registers the one comm it returns.
   */
  function NewCommFor(b: Bridge, req: CommRequest, w: World): (o: Outcome<Comm>)
    ensures o.result.Failure? <==> IsFalsy(req.targetName)
    ensures o.result.Failure? ==> o.result.error == MissingTargetName && o.world == w
    ensures o.result.Success? ==>
      && o.world.posted == w.posted
      && o.world.bindings == w.bindings
      && o.world.registry == w.registry + [o.result.value]
    ensures o.result.Success? ==>
      var comm := o.result.value;
      && comm.taskId == b.taskId
      && comm.port == b.hostPort
      && comm.targetName == req.targetName
      && comm.initialData == (if IsFalsy(req.initialData) then EmptyObject else req.initialData)
      && comm.metaData == (if IsFalsy(req.metaData) then EmptyObject else req.metaData)
      && !IsFalsy(comm.initialData) && !IsFalsy(comm.metaData)
    ensures o.result.Failure? ==> RaisedSynchronously(o.result.error)
  {
    if IsFalsy(req.targetName) then
      Outcome(Failure(MissingTargetName), w)
    else
      var comm := Comm(b.taskId, b.hostPort, req.targetName,
                       Or(req.initialData, EmptyObject), Or(req.metaData, EmptyObject));
      Outcome(Success(comm), w.(registry := w.registry + [comm]))
  }

  /** `newComm()`: a comm on the default namespace with empty initial and meta data. */
  function NewComm(b: Bridge, w: World): (o: Outcome<Comm>)
    ensures o.result == Success(Comm(b.taskId, b.hostPort, Str(DefaultTargetName), EmptyObject, EmptyObject))
    ensures o.world == w.(registry := w.registry + [o.result.value])
    ensures o == NewCommFor(b, CommRequest(Str(DefaultTargetName), EmptyObject, EmptyObject), w)
  {
    NewCommFor(b, CommRequest(Str(DefaultTargetName), Undefined, Undefined), w)
  }

  /**
   * The argument of `display`. A displayable message carries the content its
   * `_toDisplay()` resolves to; anything else is not displayable.
   */
  datatype DisplayArg = Displayable(content: JsValue) | NotDisplayableValue(value: JsValue)

  /**
   * `display(what)`: posts one display-data event with the resolved content
   * when `what` is displayable and `typeof` the content is "object".
   */
  function Display(b: Bridge, arg: DisplayArg, w: World): (o: Outcome<()>)
    ensures o.result.Success? <==> arg.Displayable? && TypeOf(arg.content) == "object"
    ensures arg.NotDisplayableValue? ==> o.result == Failure(NotDisplayable)
    ensures arg.Displayable? && TypeOf(arg.content) != "object" ==> o.result == Failure(ContentNotObject)
    ensures o.result.Failure? ==> o.world == w
    ensures o.result.Failure? ==> (RaisedSynchronously(o.result.error) <==> arg.NotDisplayableValue?)
    ensures o.result.Success? ==>
      o.world == w.(posted := w.posted + [Posting(b.hostPort, DisplayDataEvent(b.taskId, arg.content))])
  {
    match arg
    case NotDisplayableValue(_) => Outcome(Failure(NotDisplayable), w)
    case Displayable(content) =>
      if TypeOf(content) != "object" then
        Outcome(Failure(ContentNotObject), w)
      else
        Outcome(Success(()), w.(posted := w.posted + [Posting(b.hostPort, DisplayDataEvent(b.taskId, content))]))
  }

  /** Only the failure of `display` on a non-displayable argument is raised synchronously. */
  predicate RaisedSynchronously(e: BridgeError) {
    e != ContentNotObject
  }

  /** Distinct errors carry distinct messages, so the message identifies the error. */
  lemma MessagesIdentifyErrors(e1: BridgeError, e2: BridgeError)
    ensures Message(e1) == Message(e2) ==> e1 == e2
  {
  }

  /** One call kernel-side code makes on the bridge. */
  datatype Call =
    | PrintCall(items: seq<JsValue>)
    | NewCommCall
    | NewCommForCall(req: CommRequest)
    | DisplayCall(arg: DisplayArg)

  /** The world after one call; a failing call leaves it unchanged. */
  function Step(b: Bridge, call: Call, w: World): (w': World)
  {
    match call
    case PrintCall(items) => Print(b, items, w)
    case NewCommCall => NewComm(b, w).world
    case NewCommForCall(req) => NewCommFor(b, req, w).world
    case DisplayCall(arg) => Display(b, arg, w).world
  }

  /**
   * The world after a sequence of calls, each made on the world the previous
   * one left. A `display` call is taken to have settled before the next call,
   * as for a caller that awaits it.
   */
  function Run(b: Bridge, calls: seq<Call>, w: World): (w': World)
    decreases |calls|
  {
    if |calls| == 0 then w else Run(b, calls[1..], Step(b, calls[0], w))
  }

  /** A call that registers a comm. */
  predicate OpensComm(call: Call) {
    match call
    case NewCommCall => true
    case NewCommForCall(req) => !IsFalsy(req.targetName)
    case _ => false
  }

  /** A call that posts an event. */
  predicate PostsEvent(call: Call) {
    match call
    case PrintCall(items) => |items| > 0
    case DisplayCall(arg) => arg.Displayable? && TypeOf(arg.content) == "object"
    case _ => false
  }

  function CountWhere(calls: seq<Call>, p: Call -> bool): (n: nat)
    ensures n <= |calls|
  {
    if |calls| == 0 then 0 else (if p(calls[0]) then 1 else 0) + CountWhere(calls[1..], p)
  }

  /** Everything the bridge posts carries its own task id and goes to its own port. */
  ghost predicate StampedBy(b: Bridge, ps: seq<Posting>) {
    forall i :: 0 <= i < |ps| ==> ps[i].port == b.hostPort && ps[i].event.taskId == b.taskId
  }

  /** Every comm the bridge registers is scoped to its task id and port. */
  ghost predicate ScopedTo(b: Bridge, cs: seq<Comm>) {
    forall i :: 0 <= i < |cs| ==> cs[i].port == b.hostPort && cs[i].taskId == b.taskId
  }

  /** One call only appends: the earlier log and registry stay a prefix, the bindings stay put. */
  lemma StepAppends(b: Bridge, call: Call, w: World)
    ensures var w' := Step(b, call, w);
      && w'.bindings == w.bindings
      && |w'.posted| == |w.posted| + (if PostsEvent(call) then 1 else 0)
      && |w'.registry| == |w.registry| + (if OpensComm(call) then 1 else 0)
      && w'.posted[..|w.posted|] == w.posted
      && w'.registry[..|w.registry|] == w.registry
      && StampedBy(b, w'.posted[|w.posted|..])
      && ScopedTo(b, w'.registry[|w.registry|..])
  {
  }

  /**
   * A run of calls keeps the log and the registry append-only, adds one event
   * per posting call and one comm per comm-opening call, stamps every new
   * entry with the bridge's task id and port, and never rebinds.
   */
  lemma {:induction false} RunAppends(b: Bridge, calls: seq<Call>, w: World)
    ensures var w' := Run(b, calls, w);
      && w'.bindings == w.bindings
      && |w'.posted| == |w.posted| + CountWhere(calls, PostsEvent)
      && |w'.registry| == |w.registry| + CountWhere(calls, OpensComm)
      && w'.posted[..|w.posted|] == w.posted
      && w'.registry[..|w.registry|] == w.registry
      && StampedBy(b, w'.posted[|w.posted|..])
      && ScopedTo(b, w'.registry[|w.registry|..])
    decreases |calls|
  {
    if |calls| > 0 {
      var mid := Step(b, calls[0], w);
      var w' := Run(b, calls[1..], mid);
      StepAppends(b, calls[0], w);
      RunAppends(b, calls[1..], mid);
      assert w'.posted[..|w.posted|] == mid.posted[..|mid.posted|][..|w.posted|];
      assert w'.registry[..|w.registry|] == mid.registry[..|mid.registry|][..|w.registry|];
      assert forall i :: |w.posted| <= i < |w'.posted| ==>
        w'.posted[i] == (if i < |mid.posted| then mid.posted[|w.posted|..][i - |w.posted|]
                         else w'.posted[|mid.posted|..][i - |mid.posted|]);
      assert forall i :: |w.registry| <= i < |w'.registry| ==>
        w'.registry[i] == (if i < |mid.registry| then mid.registry[|w.registry|..][i - |w.registry|]
                           else w'.registry[|mid.registry|..][i - |mid.registry|]);
    } else {
      assert w.posted[|w.posted|..] == [];
      assert w.registry[|w.registry|..] == [];
    }
  }

  /** Calls that fail, or print nothing, leave the world exactly as it was. */
  lemma {:induction false} FailingCallsChangeNothing(b: Bridge, calls: seq<Call>, w: World)
    requires forall i :: 0 <= i < |calls| ==> !PostsEvent(calls[i]) && !OpensComm(calls[i])
    ensures Run(b, calls, w) == w
    decreases |calls|
  {
    if |calls| > 0 {
      assert Step(b, calls[0], w) == w;
      FailingCallsChangeNothing(b, calls[1..], w);
    }
  }

  /** The getters of a freshly built bridge return what the constructor was given. */
  lemma ConstructedIdentity(taskId: string, versionName: string, buildNumber: nat, userName: string,
                            hostPort: HostPort, w: World, x: nat, y: nat, z: nat)
    requires versionName == ShowNat(x) + "." + ShowNat(y) + "." + ShowNat(z)
    ensures var b := NewBridge(taskId, versionName, buildNumber, userName, hostPort, w).bridge;
      && b.taskId == taskId
      && b.userName == userName
      && b.version == VersionRecord(versionName + "." + ShowNat(buildNumber),
                                    Some((100 * x + 10 * y + z) * 1000 + buildNumber))
  {
    DottedNameCode(x, y, z, buildNumber);
  }
}
