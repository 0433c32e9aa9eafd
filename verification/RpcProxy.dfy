/** The fault-injection proxy: one request handler, whose lock sections interleave with control calls
from the test thread. The server handles one request at a time. */
module RpcProxy {
  import opened Wrappers

  /** Where the handler stands: between two of its lock sections, with the method of its request. */
  datatype Handler =
    | Idle
    | AtAuto(m: string)       // body read, before the auto-block section
    | AtErrors(m: string)     // before the method-error section
    | AtGate(m: string)       // before the block_after section
    | AtNotify(m: string)     // past the gate, before the notify section
    | Forwarding(m: string)   // past all sections

  datatype State = State(
    rejectRemaining: int,
    methodErrors: map<string, (int, string)>,
    blockAfter: Option<int>,
    forwardedCount: nat,
    forwardedTotal: nat,
    notifyMethod: Option<string>,
    notified: bool,
    autoBlockMethod: Option<string>,
    autoBlocked: bool,
    handler: Handler)

  const INITIAL := State(0, map[], None, 0, 0, None, false, None, false, Idle)

  datatype Event =
    | RejectNext(n: int)
    | BlockMethods(methods: set<string>)
    | BlockMethodWithError(m: string, code: int, message: string)
    | UnblockMethods
    | BlockAfter(limit: int)
    | Resume
    | NotifyOnMethod(m: string)
    | AutoBlockOnMethod(m: string)
    | Unblock
    | Request(m: string)      // a request arrives at the idle handler, with its first section
    | Section                 // the handler runs its next section, or finishes forwarding

  /** What one event does that a client can tell. */
  datatype Mark =
    | Nothing
    | Rejected
    | AutoRefused(m: string)
    | MethodError(m: string, code: int, message: string)
    | GateRefused
    | GatePassed(m: string)
    | Forwarded(m: string)

  const DEFAULT_ERROR := (-1, "CKB RPC proxy: method blocked")

  predicate Names(configured: Option<string>, m: string) {
    configured.Some? && configured.value != "" && configured.value == m
  }

  function Arrive(s: State, m: string): (State, Mark) {
    if s.rejectRemaining > 0 then (s.(rejectRemaining := s.rejectRemaining - 1), Rejected)
    else (s.(handler := AtAuto(m)), Nothing)
  }

  function RunSection(s: State): (State, Mark) {
    match s.handler
    case Idle => (s, Nothing)
    case AtAuto(m) =>
      if s.autoBlocked then (s.(handler := Idle), AutoRefused(m))
      else if Names(s.autoBlockMethod, m) then
        (s.(handler := Idle, autoBlockMethod := None, autoBlocked := true), AutoRefused(m))
      else (s.(handler := AtErrors(m)), Nothing)
    case AtErrors(m) =>
      if m in s.methodErrors then (s.(handler := Idle), MethodError(m, s.methodErrors[m].0, s.methodErrors[m].1))
      else (s.(handler := AtGate(m)), Nothing)
    case AtGate(m) =>
      if s.blockAfter.None? then (s.(handler := AtNotify(m)), GatePassed(m))
      else if s.forwardedCount >= s.blockAfter.value then (s.(handler := Idle), GateRefused)
      else (s.(handler := AtNotify(m), forwardedCount := s.forwardedCount + 1), GatePassed(m))
    case AtNotify(m) =>
      var t := s.(handler := Forwarding(m), forwardedTotal := s.forwardedTotal + 1);
      (if Names(s.notifyMethod, m) then t.(notifyMethod := None, notified := true) else t, Forwarded(m))
    case Forwarding(m) => (s.(handler := Idle), Nothing)
  }

  function Apply(s: State, e: Event): (State, Mark) {
    match e
    case RejectNext(n) => (s.(rejectRemaining := n), Nothing)
    case BlockMethods(ms) => (s.(methodErrors := map m | m in ms :: DEFAULT_ERROR), Nothing)
    case BlockMethodWithError(m, code, message) => (s.(methodErrors := s.methodErrors[m := (code, message)]), Nothing)
    case UnblockMethods => (s.(methodErrors := map[]), Nothing)
    case BlockAfter(n) => (s.(blockAfter := Some(n), forwardedCount := 0), Nothing)
    case Resume => (s.(blockAfter := None), Nothing)
    case NotifyOnMethod(m) => (s.(notifyMethod := Some(m), notified := false), Nothing)
    case AutoBlockOnMethod(m) => (s.(autoBlockMethod := Some(m), autoBlocked := false), Nothing)
    case Unblock => (s.(autoBlocked := false, autoBlockMethod := None), Nothing)
    case Request(m) => if s.handler.Idle? then Arrive(s, m) else (s, Nothing)
    case Section => RunSection(s)
  }

  class CkbRpcProxy {
    var rejectRemaining: int
    var methodErrors: map<string, (int, string)>
    var blockAfter: Option<int>
    var forwardedCount: nat
    var forwardedTotal: nat
    var notifyMethod: Option<string>
    var notified: bool
    var autoBlockMethod: Option<string>
    var autoBlocked: bool
    var handler: Handler

    function View(): State
      reads this
    {
      State(rejectRemaining, methodErrors, blockAfter, forwardedCount, forwardedTotal, notifyMethod, notified,
            autoBlockMethod, autoBlocked, handler)
    }

    constructor ()
      ensures View() == INITIAL
    {
      rejectRemaining, methodErrors, blockAfter, forwardedCount, forwardedTotal := 0, map[], None, 0, 0;
      notifyMethod, notified, autoBlockMethod, autoBlocked, handler := None, false, None, false, Idle;
    }

    method RejectNextRequests(n: int)
      modifies this
      ensures View() == Apply(old(View()), RejectNext(n)).0
    {
      rejectRemaining := n;
    }

    method BlockMethodNames(methods: set<string>)
      modifies this
      ensures View() == Apply(old(View()), BlockMethods(methods)).0
    {
      methodErrors := map m | m in methods :: DEFAULT_ERROR;
    }

    method BlockMethodError(m: string, code: int, message: string)
      modifies this
      ensures View() == Apply(old(View()), BlockMethodWithError(m, code, message)).0
    {
      methodErrors := methodErrors[m := (code, message)];
    }

    method UnblockAllMethods()
      modifies this
      ensures View() == Apply(old(View()), UnblockMethods).0
    {
      methodErrors := map[];
    }

    method BlockAfterRequests(n: int)
      modifies this
      ensures View() == Apply(old(View()), BlockAfter(n)).0
    {
      blockAfter := Some(n);
      forwardedCount := 0;
    }

    method ResumeForwarding()
      modifies this
      ensures View() == Apply(old(View()), Resume).0
    {
      blockAfter := None;
    }

    method NotifyOn(m: string)
      modifies this
      ensures View() == Apply(old(View()), NotifyOnMethod(m)).0
    {
      notifyMethod := Some(m);
      notified := false;
    }

    method AutoBlockOn(m: string)
      modifies this
      ensures View() == Apply(old(View()), AutoBlockOnMethod(m)).0
    {
      autoBlockMethod := Some(m);
      autoBlocked := false;
    }

    method UnblockProxy()
      modifies this
      ensures View() == Apply(old(View()), Unblock).0
    {
      autoBlocked := false;
      autoBlockMethod := None;
    }

    /** First section of `do_POST`, before the body is read. */
    method OnRequest(m: string) returns (mark: Mark)
      requires handler.Idle?
      modifies this
      ensures (View(), mark) == Apply(old(View()), Request(m))
    {
      if rejectRemaining > 0 {
        rejectRemaining := rejectRemaining - 1;
        return Rejected;
      }
      handler := AtAuto(m);
      return Nothing;
    }

    /** The auto-block section. */
    method OnAuto() returns (mark: Mark)
      requires handler.AtAuto?
      modifies this
      ensures (View(), mark) == Apply(old(View()), Section)
    {
      var m := handler.m;
      if autoBlocked {
        handler := Idle;
        return AutoRefused(m);
      }
      if Names(autoBlockMethod, m) {
        autoBlockMethod := None;
        autoBlocked := true;
        handler := Idle;
        return AutoRefused(m);
      }
      handler := AtErrors(m);
      return Nothing;
    }

    /** The method-error section. */
    method OnErrors() returns (mark: Mark)
      requires handler.AtErrors?
      modifies this
      ensures (View(), mark) == Apply(old(View()), Section)
    {
      var m := handler.m;
      if m in methodErrors {
        var (code, message) := methodErrors[m];
        handler := Idle;
        return MethodError(m, code, message);
      }
      handler := AtGate(m);
      return Nothing;
    }

    /** The block_after section. */
    method OnGate() returns (mark: Mark)
      requires handler.AtGate?
      modifies this
      ensures (View(), mark) == Apply(old(View()), Section)
    {
      if blockAfter.Some? {
        if forwardedCount >= blockAfter.value {
          handler := Idle;
          return GateRefused;
        }
        forwardedCount := forwardedCount + 1;
      }
      var m := handler.m;
      handler := AtNotify(m);
      return GatePassed(m);
    }

    /** The notify section; the request is forwarded after it. */
    method OnNotify() returns (mark: Mark)
      requires handler.AtNotify?
      modifies this
      ensures (View(), mark) == Apply(old(View()), Section)
    {
      var m := handler.m;
      if Names(notifyMethod, m) {
        notifyMethod := None;
        notified := true;
      }
      forwardedTotal := forwardedTotal + 1;
      handler := Forwarding(m);
      return Forwarded(m);
    }

    method OnForwarded()
      requires handler.Forwarding?
      modifies this
      ensures View() == Apply(old(View()), Section).0
    {
      handler := Idle;
    }

    /** The next section of the handler, if it has a request. */
    method RunHandler() returns (mark: Mark)
      modifies this
      ensures (View(), mark) == Apply(old(View()), Section)
    {
      mark := Nothing;
      match handler {
        case Idle =>
        case AtAuto(_) => mark := OnAuto();
        case AtErrors(_) => mark := OnErrors();
        case AtGate(_) => mark := OnGate();
        case AtNotify(_) => mark := OnNotify();
        case Forwarding(_) => OnForwarded();
      }
    }

    /** One control call, arrival or section. */
    method Handle(e: Event) returns (mark: Mark)
      modifies this
      ensures (View(), mark) == Apply(old(View()), e)
    {
      mark := Nothing;
      match e {
        case RejectNext(n) => RejectNextRequests(n);
        case BlockMethods(methods) => BlockMethodNames(methods);
        case BlockMethodWithError(m, code, message) => BlockMethodError(m, code, message);
        case UnblockMethods => UnblockAllMethods();
        case BlockAfter(n) => BlockAfterRequests(n);
        case Resume => ResumeForwarding();
        case NotifyOnMethod(m) => NotifyOn(m);
        case AutoBlockOnMethod(m) => AutoBlockOn(m);
        case Unblock => UnblockProxy();
        case Request(m) =>
          if handler.Idle? {
            mark := OnRequest(m);
          }
        case Section => mark := RunHandler();
      }
    }

    /** A whole session at the object: the test thread's calls and the handler's sections, in any
        interleaving, with what each of them showed to the client. */
    method Drive(es: seq<Event>) returns (marks: seq<Mark>)
      modifies this
      ensures View() == Run(old(View()), es) && marks == Marks(old(View()), es)
    {
      hide Apply;
      marks := [];
      assert es[..0] == [];
      for i := 0 to |es|
        invariant View() == Run(old(View()), es[..i]) && marks == Marks(old(View()), es[..i])
      {
        assert es[..i + 1][..i] == es[..i];
        var mark := Handle(es[i]);
        marks := marks + [mark];
      }
      assert es[..|es|] == es;
    }

    /** `block_after(n)`, and then a session that leaves the limit alone. */
    method DriveLimited(n: int, es: seq<Event>) returns (marks: seq<Mark>)
      requires forall e :: e in es ==> !Rearms(e)
      modifies this
      ensures blockAfter == Some(n) && forwardedCount == Tally(marks, IsPass) <= AtLeastZero(n)
      ensures Tally(marks, IsGateRefusal) > 0 ==> forwardedCount == AtLeastZero(n)
      ensures Tally(marks, IsForward) <= AtLeastZero(n) + old(InFlight(View()))
      ensures forwardedTotal == old(forwardedTotal) + Tally(marks, IsForward)
    {
      hide Run, Marks, Tally, IsPass, IsForward, IsGateRefusal;
      GateBudget(View(), n, es);
      ForwardedAfterArming(View(), n, es);
      BlockAfterRequests(n);
      PassesAndForwards(View(), es);
      marks := Drive(es);
    }

    /** A session after the auto-block has fired that neither lifts nor sets it. */
    method DriveBlocked(es: seq<Event>) returns (marks: seq<Mark>)
      requires autoBlocked && AutoBlockHolds(View())
      requires forall e :: e in es ==> !e.Unblock? && !e.AutoBlockOnMethod?
      modifies this
      ensures autoBlocked && AutoBlockHolds(View()) && forwardedTotal == old(forwardedTotal)
      ensures Tally(marks, IsForward) == 0 && Tally(marks, IsPass) == 0
    {
      hide Run, Marks, Tally, IsPass, IsForward, AutoBlockHolds;
      NothingAfterAutoBlock(View(), es);
      PassesAndForwards(View(), es);
      marks := Drive(es);
    }
  }

  // ----- runs -----

  /** The state after a sequence of events, in any interleaving. */
  function Run(s: State, es: seq<Event>): State {
    if es == [] then s else Apply(Run(s, es[..|es| - 1]), es[|es| - 1]).0
  }

  /** What the events showed, one mark each. */
  function Marks(s: State, es: seq<Event>): seq<Mark> {
    if es == [] then []
    else Marks(s, es[..|es| - 1]) + [Apply(Run(s, es[..|es| - 1]), es[|es| - 1]).1]
  }

  function Tally(marks: seq<Mark>, kind: Mark -> bool): nat {
    if marks == [] then 0
    else Tally(marks[..|marks| - 1], kind) + (if kind(marks[|marks| - 1]) then 1 else 0)
  }

  /** How many of the events had a mark of this kind. */
  function Count(s: State, es: seq<Event>, kind: Mark -> bool): nat {
    Tally(Marks(s, es), kind)
  }

  predicate IsPass(m: Mark) { m.GatePassed? }

  predicate IsForward(m: Mark) { m.Forwarded? }

  predicate IsReject(m: Mark) { m == Rejected }

  predicate IsGateRefusal(m: Mark) { m == GateRefused }

  /** The request ends: refused at some section, or handed over for forwarding. */
  predicate IsOutcome(m: Mark) { m != Nothing && !m.GatePassed? }

  /** How many requests arrived at the idle handler. */
  function Arrivals(s: State, es: seq<Event>): nat {
    if es == [] then 0
    else
      Arrivals(s, es[..|es| - 1])
        + (if es[|es| - 1].Request? && Run(s, es[..|es| - 1]).handler.Idle? then 1 else 0)
  }

  function AtLeastZero(n: int): nat {
    if n < 0 then 0 else n
  }

  /** One request that has passed the gate and is not yet counted as forwarded. */
  function InFlight(s: State): nat {
    if s.handler.AtNotify? then 1 else 0
  }

  /** One request whose outcome is still open. */
  function Open(s: State): nat {
    if s.handler.Idle? || s.handler.Forwarding? then 0 else 1
  }

  predicate Rearms(e: Event) {
    e.BlockAfter? || e.Resume?
  }

  lemma GateStep(s: State, e: Event, n: int)
    requires !Rearms(e) && s.blockAfter == Some(n)
    ensures var (t, mark) := Apply(s, e);
      && t.blockAfter == Some(n)
      && t.forwardedCount == s.forwardedCount + (if IsPass(mark) then 1 else 0)
      && (IsPass(mark) ==> s.forwardedCount < n)
      && (IsGateRefusal(mark) ==> s.forwardedCount >= n)
  {
  }

  lemma Armed(s: State, n: int)
    ensures Apply(s, BlockAfter(n)).0.blockAfter == Some(n) && Apply(s, BlockAfter(n)).0.forwardedCount == 0
    ensures Apply(s, RejectNext(n)).0.rejectRemaining == n
  {
  }

  lemma FlightStep(s: State, e: Event)
    ensures var (t, mark) := Apply(s, e);
      && (if IsForward(mark) then 1 else 0) + InFlight(t) == (if IsPass(mark) then 1 else 0) + InFlight(s)
      && t.forwardedTotal == s.forwardedTotal + (if IsForward(mark) then 1 else 0)
  {
  }

  lemma OutcomeStep(s: State, e: Event)
    ensures var (t, mark) := Apply(s, e);
      (if e.Request? && s.handler.Idle? then 1 else 0) + Open(s) == (if IsOutcome(mark) then 1 else 0) + Open(t)
  {
  }

  lemma BlockedStep(s: State, e: Event)
    requires s.autoBlocked && AutoBlockHolds(s) && !e.Unblock? && !e.AutoBlockOnMethod?
    ensures var (t, mark) := Apply(s, e);
      t.autoBlocked && AutoBlockHolds(t) && !IsForward(mark) && !IsPass(mark)
  {
  }

  lemma RejectStep(s: State, e: Event)
    requires !e.RejectNext?
    ensures var (t, mark) := Apply(s, e);
      && (IsReject(mark) <==> e.Request? && s.handler.Idle? && s.rejectRemaining > 0)
      && t.rejectRemaining == s.rejectRemaining - (if IsReject(mark) then 1 else 0)
  {
  }

  /** Nothing has been configured. */
  predicate Untouched(s: State) {
    && s.rejectRemaining == 0 && s.methodErrors == map[] && s.blockAfter == None
    && s.notifyMethod == None && !s.notified && s.autoBlockMethod == None && !s.autoBlocked
  }

  lemma UntouchedStep(s: State, e: Event)
    requires Untouched(s) && (e.Request? || e.Section?)
    ensures var (t, mark) := Apply(s, e); Untouched(t) && (IsOutcome(mark) <==> IsForward(mark))
  {
  }

  /** A new proxy that nobody configures forwards every request: each one that arrives has been forwarded,
      as the total says, or is still open. */
  lemma {:induction false} NewProxyForwards(es: seq<Event>)
    requires forall e :: e in es ==> e.Request? || e.Section?
    ensures var t := Run(INITIAL, es);
      && Untouched(t)
      && Arrivals(INITIAL, es) == Count(INITIAL, es, IsForward) + Open(t)
      && t.forwardedTotal == Count(INITIAL, es, IsForward)
  {
    hide Apply, IsOutcome, IsForward, Untouched, Open;
    if es == [] {
      NewIsUntouched();
    } else {
      assert es[|es| - 1] in es;
      assert forall e :: e in es[..|es| - 1] ==> e in es;
      NewProxyForwards(es[..|es| - 1]);
      var s := Run(INITIAL, es[..|es| - 1]);
      UntouchedStep(s, es[|es| - 1]);
      OutcomeStep(s, es[|es| - 1]);
      FlightStep(s, es[|es| - 1]);
    }
  }

  lemma NewIsUntouched()
    ensures Untouched(INITIAL) && Open(INITIAL) == 0 && INITIAL.forwardedTotal == 0
  {
  }

  /** After `block_after(n)`, and until it is called again or resumed, `_forwarded_count` is the
      number of requests that passed the gate; they never exceed `n`; and a request is refused at
      the gate only when exactly `n` have passed. */
  lemma {:induction false} GateBudget(s: State, n: int, es: seq<Event>)
    requires forall e :: e in es ==> !Rearms(e)
    ensures var armed := Apply(s, BlockAfter(n)).0; var t := Run(armed, es);
      && t.blockAfter == Some(n)
      && t.forwardedCount == Count(armed, es, IsPass) <= AtLeastZero(n)
      && (Count(armed, es, IsGateRefusal) > 0 ==> t.forwardedCount == AtLeastZero(n))
  {
    hide Apply, IsPass, IsGateRefusal;
    if es == [] {
      Armed(s, n);
    } else {
      assert es[|es| - 1] in es;
      assert forall e :: e in es[..|es| - 1] ==> e in es;
      GateBudget(s, n, es[..|es| - 1]);
      GateStep(Run(Apply(s, BlockAfter(n)).0, es[..|es| - 1]), es[|es| - 1], n);
    }
  }

  /** Passing the gate and being forwarded are two sections: between them a request is in flight. */
  lemma {:induction false} PassesAndForwards(s: State, es: seq<Event>)
    ensures Count(s, es, IsForward) + InFlight(Run(s, es)) == Count(s, es, IsPass) + InFlight(s)
    ensures Run(s, es).forwardedTotal == s.forwardedTotal + Count(s, es, IsForward)
  {
    hide Apply, IsPass, IsForward;
    if es != [] {
      PassesAndForwards(s, es[..|es| - 1]);
      FlightStep(Run(s, es[..|es| - 1]), es[|es| - 1]);
    }
  }

  /** So at most `n` requests are forwarded after `block_after(n)`, plus the one that had already
      passed the gate when it was called. */
  lemma ForwardedAfterArming(s: State, n: int, es: seq<Event>)
    requires forall e :: e in es ==> !Rearms(e)
    ensures var armed := Apply(s, BlockAfter(n)).0;
      Count(armed, es, IsForward) <= AtLeastZero(n) + InFlight(s)
  {
    var armed := Apply(s, BlockAfter(n)).0;
    GateBudget(s, n, es);
    PassesAndForwards(armed, es);
  }

  lemma {:induction false} RunConcat(s: State, a: seq<Event>, b: seq<Event>)
    ensures Run(s, a + b) == Run(Run(s, a), b)
    decreases |b|
  {
    hide Apply;
    if b == [] {
      assert a + b == a;
    } else {
      RunConcat(s, a, b[..|b| - 1]);
      assert (a + b)[..|a + b| - 1] == a + b[..|b| - 1];
    }
  }

  lemma RunOne(s: State, e: Event)
    ensures Run(s, [e]) == Apply(s, e).0
  {
    hide Apply;
    assert [e][..0] == [];
  }

  lemma RunFirst(s: State, e: Event, es: seq<Event>)
    ensures Run(s, [e] + es) == Run(Apply(s, e).0, es)
  {
    hide Apply;
    RunConcat(s, [e], es);
    RunOne(s, e);
  }

  /** Only the limit of `block_after(n)` can refuse a request. */
  predicate Clear(s: State, n: int) {
    && s.rejectRemaining <= 0 && s.methodErrors == map[] && !s.autoBlocked && s.autoBlockMethod == None
    && s.blockAfter == Some(n)
  }

  predicate BeforeGate(s: State) {
    s.handler.AtAuto? || s.handler.AtErrors? || s.handler.AtGate?
  }

  /** The handler finishes its request. */
  lemma {:induction false} FinishRequest(s: State, n: int, left: nat) returns (es: seq<Event>)
    requires Clear(s, n) && SectionsLeft(s) <= left
    ensures forall e :: e in es ==> e.Section?
    ensures var t := Run(s, es);
      && Clear(t, n) && t.handler.Idle?
      && t.forwardedCount == s.forwardedCount + (if BeforeGate(s) && s.forwardedCount < n then 1 else 0)
    decreases left
  {
    es := [];
    if !s.handler.Idle? {
      es := FinishRequest(RunSection(s).0, n, left - 1);
      RunFirst(s, Section, es);
      es := [Section] + es;
    }
  }

  function SectionsLeft(s: State): nat {
    match s.handler
    case Idle => 0
    case Forwarding(_) => 1
    case AtNotify(_) => 2
    case AtGate(_) => 3
    case AtErrors(_) => 4
    case AtAuto(_) => 5
  }

  /** Requests until the limit is reached. */
  lemma {:induction false} UseBudget(s: State, n: int) returns (es: seq<Event>)
    requires Clear(s, n) && s.handler.Idle?
    ensures forall e :: e in es ==> !Rearms(e)
    ensures var t := Run(s, es); t.handler.Idle? && t.forwardedCount >= n
    decreases n - s.forwardedCount
  {
    es := [];
    if s.forwardedCount < n {
      var t := Apply(s, Request("")).0;
      var one := FinishRequest(t, n, 5);
      var more := UseBudget(Run(t, one), n);
      RunConcat(t, one, more);
      RunFirst(s, Request(""), one + more);
      es := [Request("")] + (one + more);
    }
  }

  /** From every state the bound of `ForwardedAfterArming` is attained. */
  lemma LimitAttained(s: State, n: int) returns (es: seq<Event>)
    ensures forall e :: e in es ==> !Rearms(e)
    ensures Count(Apply(s, BlockAfter(n)).0, es, IsForward) == AtLeastZero(n) + InFlight(s)
  {
    var armed := Apply(s, BlockAfter(n)).0;
    var a := Apply(armed, RejectNext(0)).0;
    var b := Apply(a, UnblockMethods).0;
    var c := Apply(b, Unblock).0;
    var first := FinishRequest(c, n, 5);
    var rest := UseBudget(Run(c, first), n);
    RunConcat(c, first, rest);
    RunFirst(b, Unblock, first + rest);
    RunFirst(a, UnblockMethods, [Unblock] + (first + rest));
    RunFirst(armed, RejectNext(0), [UnblockMethods] + ([Unblock] + (first + rest)));
    es := [RejectNext(0)] + ([UnblockMethods] + ([Unblock] + (first + rest)));
    BudgetUsed(s, n, es);
  }

  lemma BudgetUsed(s: State, n: int, es: seq<Event>)
    requires forall e :: e in es ==> !Rearms(e)
    requires var t := Run(Apply(s, BlockAfter(n)).0, es); t.handler.Idle? && t.forwardedCount >= n
    ensures Count(Apply(s, BlockAfter(n)).0, es, IsForward) == AtLeastZero(n) + InFlight(s)
  {
    hide Run, Count, IsForward, IsPass;
    GateBudget(s, n, es);
    PassesAndForwards(Apply(s, BlockAfter(n)).0, es);
  }

  /** The documented limit, at most `n` requests forwarded, holds in every interleaving exactly when
      no request stood between the gate and its forwarding when `block_after(n)` was called. */
  lemma ArmingExact(s: State, n: int)
    ensures (forall es :: (forall e :: e in es ==> !Rearms(e)) ==>
              Count(Apply(s, BlockAfter(n)).0, es, IsForward) <= AtLeastZero(n))
      <==> InFlight(s) == 0
  {
    hide Apply, Count;
    forall es | forall e :: e in es ==> !Rearms(e)
      ensures Count(Apply(s, BlockAfter(n)).0, es, IsForward) <= AtLeastZero(n) + InFlight(s)
    {
      ForwardedAfterArming(s, n, es);
    }
    var es := LimitAttained(s, n);
    assert InFlight(s) > 0 ==> Count(Apply(s, BlockAfter(n)).0, es, IsForward) > AtLeastZero(n);
  }

  /** `reject_next(n)` resets exactly the first `n` requests that arrive, until it is called again. */
  lemma {:induction false} RejectsExactly(s: State, n: int, es: seq<Event>)
    requires forall e :: e in es ==> !e.RejectNext?
    ensures var armed := Apply(s, RejectNext(n)).0;
      && Count(armed, es, IsReject) == (if Arrivals(armed, es) < AtLeastZero(n) then Arrivals(armed, es) else AtLeastZero(n))
      && Run(armed, es).rejectRemaining == n - Count(armed, es, IsReject)
  {
    hide Apply, IsReject;
    if es == [] {
      Armed(s, n);
    } else {
      assert es[|es| - 1] in es;
      assert forall e :: e in es[..|es| - 1] ==> e in es;
      RejectsExactly(s, n, es[..|es| - 1]);
      RejectStep(Run(Apply(s, RejectNext(n)).0, es[..|es| - 1]), es[|es| - 1]);
    }
  }

  /** Every request that arrives has exactly one outcome, or is still open. */
  lemma {:induction false} OneOutcomeEach(s: State, es: seq<Event>)
    ensures Arrivals(s, es) + Open(s) == Count(s, es, IsOutcome) + Open(Run(s, es))
  {
    hide Apply, IsOutcome;
    if es != [] {
      OneOutcomeEach(s, es[..|es| - 1]);
      OutcomeStep(Run(s, es[..|es| - 1]), es[|es| - 1]);
    }
  }

  /** While auto-blocked, no request is past the auto-block section. */
  predicate AutoBlockHolds(s: State) {
    s.autoBlocked ==> s.handler.Idle? || s.handler.AtAuto?
  }

  lemma {:induction false} AutoBlockInvariant(es: seq<Event>)
    ensures AutoBlockHolds(Run(INITIAL, es))
  {
    if es != [] {
      AutoBlockInvariant(es[..|es| - 1]);
    }
  }

  /** After an auto-block has triggered nothing passes the gate and nothing is forwarded, whatever
      the test thread does, until it unblocks or arms the trigger again. */
  lemma {:induction false} NothingAfterAutoBlock(s: State, es: seq<Event>)
    requires s.autoBlocked && AutoBlockHolds(s)
    requires forall e :: e in es ==> !e.Unblock? && !e.AutoBlockOnMethod?
    ensures Run(s, es).autoBlocked && AutoBlockHolds(Run(s, es))
    ensures Count(s, es, IsForward) == 0 && Count(s, es, IsPass) == 0
  {
    hide Apply, IsPass, IsForward;
    if es != [] {
      assert es[|es| - 1] in es;
      assert forall e :: e in es[..|es| - 1] ==> e in es;
      NothingAfterAutoBlock(s, es[..|es| - 1]);
      BlockedStep(Run(s, es[..|es| - 1]), es[|es| - 1]);
    }
  }

  // ----- what each control call means for the requests that follow -----

  /** A request for one of these methods is past the error section and not yet forwarded. */
  function PastErrors(h: Handler, ms: set<string>): nat {
    if (h.AtGate? || h.AtNotify?) && h.m in ms then 1 else 0
  }

  /** Or past the auto-block section. */
  function PastAuto(h: Handler, ms: set<string>): nat {
    if (h.AtErrors? || h.AtGate? || h.AtNotify?) && h.m in ms then 1 else 0
  }

  function ForwardIn(ms: set<string>): Mark -> bool {
    (k: Mark) => k.Forwarded? && k.m in ms
  }

  function ForwardOf(name: string): Mark -> bool {
    (k: Mark) => k == Forwarded(name)
  }

  predicate IsAutoRefusal(k: Mark) { k.AutoRefused? }

  function AutoRefusalOf(name: string): Mark -> bool {
    (k: Mark) => k == AutoRefused(name)
  }

  /** An error that `block_methods(ms)` does not explain. */
  function ForeignError(ms: set<string>): Mark -> bool {
    (k: Mark) => k.MethodError? && !(k.m in ms && k.code == -1 && k.message == "CKB RPC proxy: method blocked")
  }

  predicate Configures(e: Event) {
    e.BlockMethods? || e.BlockMethodWithError? || e.UnblockMethods?
  }

  predicate SetsTrigger(e: Event) {
    e.Unblock? || e.AutoBlockOnMethod?
  }

  lemma ResumedStep(s: State, e: Event)
    requires !e.BlockAfter? && s.blockAfter == None
    ensures var (t, mark) := Apply(s, e);
      t.blockAfter == None && t.forwardedCount == s.forwardedCount && !IsGateRefusal(mark)
  {
  }

  /** After `resume()` the gate refuses nothing and counts nothing until it is armed again. */
  lemma {:induction false} ResumeOpensGate(s: State, es: seq<Event>)
    requires forall e :: e in es ==> !e.BlockAfter?
    ensures var resumed := Apply(s, Resume).0; var t := Run(resumed, es);
      && t.blockAfter == None && t.forwardedCount == s.forwardedCount
      && Count(resumed, es, IsGateRefusal) == 0
  {
    var resumed := Apply(s, Resume).0;
    assert resumed.blockAfter == None && resumed.forwardedCount == s.forwardedCount;
    hide Apply, IsGateRefusal;
    if es != [] {
      assert es[|es| - 1] in es;
      assert forall e :: e in es[..|es| - 1] ==> e in es;
      ResumeOpensGate(s, es[..|es| - 1]);
      ResumedStep(Run(resumed, es[..|es| - 1]), es[|es| - 1]);
    }
  }

  ghost predicate Blocks(s: State, ms: set<string>) {
    s.methodErrors == map m | m in ms :: DEFAULT_ERROR
  }

  lemma MethodStep(s: State, e: Event, ms: set<string>)
    requires !Configures(e) && Blocks(s, ms)
    ensures var (t, mark) := Apply(s, e);
      && Blocks(t, ms) && !ForeignError(ms)(mark)
      && (if ForwardIn(ms)(mark) then 1 else 0) + PastErrors(t.handler, ms) <= PastErrors(s.handler, ms)
  {
  }

  /** After `block_methods(ms)`, and until the table is changed, no request for a method in `ms` is
      forwarded but the one that was past the error section; and only these methods are answered
      with an error, the default one. */
  lemma {:induction false} BlockedMethodsStop(s: State, ms: set<string>, es: seq<Event>)
    requires forall e :: e in es ==> !Configures(e)
    ensures var blocked := Apply(s, BlockMethods(ms)).0; var t := Run(blocked, es);
      && Blocks(t, ms)
      && Count(blocked, es, ForwardIn(ms)) + PastErrors(t.handler, ms) <= PastErrors(s.handler, ms)
      && Count(blocked, es, ForeignError(ms)) == 0
  {
    var blocked := Apply(s, BlockMethods(ms)).0;
    assert Blocks(blocked, ms) && blocked.handler == s.handler;
    hide Apply, ForwardIn, ForeignError, Blocks, PastErrors;
    if es != [] {
      assert es[|es| - 1] in es;
      assert forall e :: e in es[..|es| - 1] ==> e in es;
      BlockedMethodsStop(s, ms, es[..|es| - 1]);
      MethodStep(Run(blocked, es[..|es| - 1]), es[|es| - 1], ms);
    }
  }

  /** An error for `name` other than this one. */
  function OtherError(name: string, code: int, message: string): Mark -> bool {
    (k: Mark) => k.MethodError? && k.m == name && !(k.code == code && k.message == message)
  }

  predicate IsMethodError(k: Mark) { k.MethodError? }

  predicate Answers(s: State, name: string, code: int, message: string) {
    name in s.methodErrors && s.methodErrors[name] == (code, message)
  }

  lemma ErrorStep(s: State, e: Event, name: string, code: int, message: string)
    requires !Configures(e) && Answers(s, name, code, message)
    ensures var (t, mark) := Apply(s, e);
      && Answers(t, name, code, message) && t.methodErrors == s.methodErrors && !OtherError(name, code, message)(mark)
      && (if ForwardIn({name})(mark) then 1 else 0) + PastErrors(t.handler, {name}) <= PastErrors(s.handler, {name})
  {
  }

  /** After `block_method_with_error(name, ..)` requests for `name` are answered with that code and
      message and not forwarded, but for one past the section; the other methods stay as they were. */
  lemma {:induction false} ConfiguredErrorAnswers(s: State, name: string, code: int, message: string, es: seq<Event>)
    requires forall e :: e in es ==> !Configures(e)
    ensures var blocked := Apply(s, BlockMethodWithError(name, code, message)).0; var t := Run(blocked, es);
      && Answers(t, name, code, message)
      && (forall m :: m != name ==> (m in t.methodErrors <==> m in s.methodErrors))
      && (forall m :: m != name && m in s.methodErrors ==> t.methodErrors[m] == s.methodErrors[m])
      && Count(blocked, es, OtherError(name, code, message)) == 0
      && Count(blocked, es, ForwardIn({name})) + PastErrors(t.handler, {name}) <= PastErrors(s.handler, {name})
  {
    var blocked := Apply(s, BlockMethodWithError(name, code, message)).0;
    assert Answers(blocked, name, code, message) && blocked.handler == s.handler;
    hide Apply, ForwardIn, OtherError, Answers, PastErrors;
    if es != [] {
      assert es[|es| - 1] in es;
      assert forall e :: e in es[..|es| - 1] ==> e in es;
      ConfiguredErrorAnswers(s, name, code, message, es[..|es| - 1]);
      ErrorStep(Run(blocked, es[..|es| - 1]), es[|es| - 1], name, code, message);
    }
  }

  lemma NoErrorStep(s: State, e: Event)
    requires !Configures(e) && s.methodErrors == map[]
    ensures var (t, mark) := Apply(s, e); t.methodErrors == map[] && !IsMethodError(mark)
  {
  }

  /** After `unblock_methods()` no method is answered with an error until the table is set again. */
  lemma {:induction false} UnblockMethodsClears(s: State, es: seq<Event>)
    requires forall e :: e in es ==> !Configures(e)
    ensures var cleared := Apply(s, UnblockMethods).0;
      Run(cleared, es).methodErrors == map[] && Count(cleared, es, IsMethodError) == 0
  {
    var cleared := Apply(s, UnblockMethods).0;
    assert cleared.methodErrors == map[];
    hide Apply, IsMethodError;
    if es != [] {
      assert es[|es| - 1] in es;
      assert forall e :: e in es[..|es| - 1] ==> e in es;
      UnblockMethodsClears(s, es[..|es| - 1]);
      NoErrorStep(Run(cleared, es[..|es| - 1]), es[|es| - 1]);
    }
  }

  lemma CountsLast(s: State, es: seq<Event>, e: Event, kind: Mark -> bool)
    requires kind(Apply(Run(s, es), e).1)
    ensures Count(s, es + [e], kind) > 0
  {
    hide Apply;
    assert (es + [e])[..|es|] == es;
  }

  /** A request that nothing stops any more comes to its forwarding. */
  lemma {:induction false} ReachForwarding(s: State, left: nat) returns (es: seq<Event>)
    requires s.handler.AtErrors? || s.handler.AtGate? || s.handler.AtNotify?
    requires (s.handler.AtErrors? ==> s.methodErrors == map[]) && s.blockAfter == None && SectionsLeft(s) <= left
    ensures forall e :: e in es ==> e.Section?
    ensures Run(s, es).handler == AtNotify(s.handler.m)
    decreases left
  {
    es := [];
    if !s.handler.AtNotify? {
      es := ReachForwarding(RunSection(s).0, left - 1);
      RunFirst(s, Section, es);
      es := [Section] + es;
    }
  }

  /** A request past the error section can still be forwarded. */
  lemma PastIsForwarded(s: State, ms: set<string>) returns (es: seq<Event>)
    requires PastErrors(s.handler, ms) > 0
    ensures forall e :: e in es ==> !Configures(e)
    ensures Count(s, es, ForwardIn(ms)) > 0
  {
    var open := Apply(s, Resume).0;
    var sections := ReachForwarding(open, 5);
    RunFirst(s, Resume, sections);
    CountsLast(s, [Resume] + sections, Section, ForwardIn(ms));
    es := [Resume] + sections + [Section];
  }

  /** So none of the methods is forwarded in any session exactly when no such request was past the
      error section. */
  lemma BlockingExact(s: State, ms: set<string>)
    ensures (forall es :: (forall e :: e in es ==> !Configures(e)) ==>
              Count(Apply(s, BlockMethods(ms)).0, es, ForwardIn(ms)) == 0)
      <==> PastErrors(s.handler, ms) == 0
  {
    hide Count, ForwardIn;
    var blocked := Apply(s, BlockMethods(ms)).0;
    forall es | forall e :: e in es ==> !Configures(e)
      ensures Count(blocked, es, ForwardIn(ms)) <= PastErrors(s.handler, ms)
    {
      BlockedMethodsStop(s, ms, es);
    }
    if PastErrors(s.handler, ms) > 0 {
      var es := PastIsForwarded(blocked, ms);
    }
  }

  /** The trigger is set, or it has fired and is gone. */
  predicate TriggerSet(s: State, name: string) {
    if s.autoBlocked then s.autoBlockMethod == None else s.autoBlockMethod == Some(name)
  }

  lemma TriggerStep(s: State, e: Event, name: string)
    requires !SetsTrigger(e) && TriggerSet(s, name)
    ensures var (t, mark) := Apply(s, e);
      && TriggerSet(t, name)
      && (t.autoBlocked <==> s.autoBlocked || AutoRefusalOf(name)(mark))
      && (IsAutoRefusal(mark) ==> s.autoBlocked || AutoRefusalOf(name)(mark))
      && (name != "" ==>
            (if ForwardIn({name})(mark) then 1 else 0) + PastAuto(t.handler, {name}) <= PastAuto(s.handler, {name}))
  {
  }

  /** After `auto_block_on_method(name)`, until it is set again or lifted: the first request for `name`
      to reach the section, and nothing before it, blocks the proxy; no request for `name` is
      forwarded but the one that was past the section. (An empty name never triggers.) */
  lemma {:induction false} TriggerFires(s: State, name: string, es: seq<Event>)
    requires forall e :: e in es ==> !SetsTrigger(e)
    ensures var armed := Apply(s, AutoBlockOnMethod(name)).0; var t := Run(armed, es);
      && TriggerSet(t, name)
      && (t.autoBlocked <==> Count(armed, es, AutoRefusalOf(name)) > 0)
      && (Count(armed, es, IsAutoRefusal) > 0 ==> t.autoBlocked)
      && (name != "" ==> Count(armed, es, ForwardIn({name})) + PastAuto(t.handler, {name}) <= PastAuto(s.handler, {name}))
  {
    var armed := Apply(s, AutoBlockOnMethod(name)).0;
    assert TriggerSet(armed, name) && !armed.autoBlocked && armed.handler == s.handler;
    hide Apply, ForwardIn, AutoRefusalOf, IsAutoRefusal, PastAuto, TriggerSet;
    if es != [] {
      assert es[|es| - 1] in es;
      assert forall e :: e in es[..|es| - 1] ==> e in es;
      TriggerFires(s, name, es[..|es| - 1]);
      TriggerStep(Run(armed, es[..|es| - 1]), es[|es| - 1], name);
    }
  }

  /** A request past the auto-block section can still be forwarded. */
  lemma PastTriggerIsForwarded(s: State, name: string) returns (es: seq<Event>)
    requires PastAuto(s.handler, {name}) > 0
    ensures forall e :: e in es ==> !SetsTrigger(e)
    ensures Count(s, es, ForwardIn({name})) > 0
  {
    var a := Apply(s, UnblockMethods).0;
    var b := Apply(a, Resume).0;
    var sections := ReachForwarding(b, 5);
    RunFirst(a, Resume, sections);
    RunFirst(s, UnblockMethods, [Resume] + sections);
    CountsLast(s, [UnblockMethods] + ([Resume] + sections), Section, ForwardIn({name}));
    es := [UnblockMethods] + ([Resume] + sections) + [Section];
  }

  /** So no request for the trigger method is forwarded in any session exactly when none was past the
      section. */
  lemma TriggerExact(s: State, name: string)
    requires name != ""
    ensures (forall es :: (forall e :: e in es ==> !SetsTrigger(e)) ==>
              Count(Apply(s, AutoBlockOnMethod(name)).0, es, ForwardIn({name})) == 0)
      <==> PastAuto(s.handler, {name}) == 0
  {
    hide Count, ForwardIn;
    var armed := Apply(s, AutoBlockOnMethod(name)).0;
    forall es | forall e :: e in es ==> !SetsTrigger(e)
      ensures Count(armed, es, ForwardIn({name})) <= PastAuto(s.handler, {name})
    {
      TriggerFires(s, name, es);
    }
    if PastAuto(s.handler, {name}) > 0 {
      var es := PastTriggerIsForwarded(armed, name);
    }
  }

  lemma UnblockedStep(s: State, e: Event)
    requires !e.AutoBlockOnMethod? && !s.autoBlocked && s.autoBlockMethod == None
    ensures var (t, mark) := Apply(s, e); !t.autoBlocked && t.autoBlockMethod == None && !IsAutoRefusal(mark)
  {
  }

  /** After `unblock()` no request is refused by the auto-block until it is armed again. */
  lemma {:induction false} UnblockLifts(s: State, es: seq<Event>)
    requires forall e :: e in es ==> !e.AutoBlockOnMethod?
    ensures var lifted := Apply(s, Unblock).0; var t := Run(lifted, es);
      && !t.autoBlocked && t.autoBlockMethod == None
      && Count(lifted, es, IsAutoRefusal) == 0
  {
    var lifted := Apply(s, Unblock).0;
    assert !lifted.autoBlocked && lifted.autoBlockMethod == None;
    hide Apply, IsAutoRefusal;
    if es != [] {
      assert es[|es| - 1] in es;
      assert forall e :: e in es[..|es| - 1] ==> e in es;
      UnblockLifts(s, es[..|es| - 1]);
      UnblockedStep(Run(lifted, es[..|es| - 1]), es[|es| - 1]);
    }
  }

  predicate Listening(s: State, name: string) {
    if s.notified then s.notifyMethod == None else s.notifyMethod == Some(name)
  }

  lemma NotifyStep(s: State, e: Event, name: string)
    requires !e.NotifyOnMethod? && Listening(s, name)
    ensures var (t, mark) := Apply(s, e);
      && Listening(t, name)
      && (t.notified <==> s.notified || (name != "" && ForwardOf(name)(mark)))
  {
  }

  /** After `notify_on_method(name)` the event is set exactly when a request for `name` is forwarded. */
  lemma {:induction false} NotifiedIffForwarded(s: State, name: string, es: seq<Event>)
    requires forall e :: e in es ==> !e.NotifyOnMethod?
    ensures var listening := Apply(s, NotifyOnMethod(name)).0; var t := Run(listening, es);
      && Listening(t, name)
      && (t.notified <==> name != "" && Count(listening, es, ForwardOf(name)) > 0)
  {
    var listening := Apply(s, NotifyOnMethod(name)).0;
    assert Listening(listening, name) && !listening.notified;
    hide Apply, ForwardOf, Listening;
    if es != [] {
      assert es[|es| - 1] in es;
      assert forall e :: e in es[..|es| - 1] ==> e in es;
      NotifiedIffForwarded(s, name, es[..|es| - 1]);
      NotifyStep(Run(listening, es[..|es| - 1]), es[|es| - 1], name);
    }
  }
}
