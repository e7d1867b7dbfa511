/** The template provider's two caches under concurrent calls.

    A call is a thread that moves through the statements of getRaw or getRawTemplate one at a
    time. The two read-write locks are not separate state: a thread holds a lock exactly while it
    is between taking and releasing it.
 */
module TemplateProviders {
  import opened Options

  /** Fixed file contents, and what each content parses to, if it does. */
  datatype World = World(files: map<string, string>, parsed: map<string, string>)

  datatype Call = RawCall | TemplateCall

  datatype PC =
    // getRawTemplate
    | TReadLock | TLookup | TReadUnlock(cached: Option<string>) | TWriteLock | TWriteWait | TRecheck
    | TParse(bin: string) | TStore(raw: string) | TWriteUnlock(result: Option<string>)
    // getRaw, called directly or by getRawTemplate
    | BReadLock | BLookup | BReadUnlock(cached: Option<string>) | BWriteLock | BWriteWait | BRecheck
    | BReadFile | BStore(bin: string) | BWriteUnlock(result: Option<string>)
    // the call has returned
    | Done(result: Option<string>)

  datatype Thread = Thread(call: Call, path: string, pc: PC)

  /** `fileReads` and `parses` count the successful ones; `failures` are the paths some read failed for. */
  datatype State = State(threads: seq<Thread>, binCache: map<string, string>, templateCache: map<string, string>,
                         fileReads: multiset<string>, parses: multiset<string>, failures: set<string>)

  // ---------- the locks ----------

  predicate InGetRaw(t: Thread) {
    t.pc.BReadLock? || t.pc.BLookup? || t.pc.BReadUnlock? || t.pc.BWriteLock? || t.pc.BWriteWait?
    || t.pc.BRecheck? || t.pc.BReadFile? || t.pc.BStore? || t.pc.BWriteUnlock?
  }

  predicate ReadsBin(t: Thread) { t.pc.BLookup? || t.pc.BReadUnlock? }
  predicate WritesBin(t: Thread) { t.pc.BRecheck? || t.pc.BReadFile? || t.pc.BStore? || t.pc.BWriteUnlock? }
  predicate ReadsTemplates(t: Thread) { t.pc.TLookup? || t.pc.TReadUnlock? }
  predicate WritesTemplates(t: Thread) {
    || t.pc.TRecheck? || t.pc.TParse? || t.pc.TStore? || t.pc.TWriteUnlock?
    || (t.call.TemplateCall? && InGetRaw(t))
  }

  /** Whether thread `i` can move. A writer that waits keeps new readers out. */
  ghost predicate Enabled(s: State, i: nat)
    requires i < |s.threads|
  {
    match s.threads[i].pc
    case TReadLock => forall t :: t in s.threads ==> !WritesTemplates(t) && !t.pc.TWriteWait?
    case TWriteWait => forall t :: t in s.threads ==> !WritesTemplates(t) && !ReadsTemplates(t)
    case BReadLock => forall t :: t in s.threads ==> !WritesBin(t) && !t.pc.BWriteWait?
    case BWriteWait => forall t :: t in s.threads ==> !WritesBin(t) && !ReadsBin(t)
    case Done(_) => false
    case _ => true
  }

  // ---------- one statement ----------

  function Lookup(cache: map<string, string>, path: string): Option<string> {
    if path in cache then Some(cache[path]) else None
  }

  /** Where a call goes on when getRaw returns. */
  function RawReturned(call: Call, result: Option<string>): PC {
    match call
    case RawCall => Done(result)
    case TemplateCall => if result.Some? then TParse(result.value) else TWriteUnlock(None)
  }

  /** The next statement; `readable` says whether reading the file would succeed now. */
  function NextPC(w: World, s: State, t: Thread, readable: bool): PC {
    match t.pc
    case TReadLock => TLookup
    case TLookup => TReadUnlock(Lookup(s.templateCache, t.path))
    case TReadUnlock(cached) => if cached.Some? then Done(cached) else TWriteLock
    case TWriteLock => TWriteWait
    case TWriteWait => TRecheck
    case TRecheck =>
      if t.path in s.templateCache then TWriteUnlock(Some(s.templateCache[t.path])) else BReadLock
    case TParse(bin) => if bin in w.parsed then TStore(w.parsed[bin]) else TWriteUnlock(None)
    case TStore(raw) => TWriteUnlock(Some(raw))
    case TWriteUnlock(result) => Done(result)
    case BReadLock => BLookup
    case BLookup => BReadUnlock(Lookup(s.binCache, t.path))
    case BReadUnlock(cached) => if cached.Some? then RawReturned(t.call, cached) else BWriteLock
    case BWriteLock => BWriteWait
    case BWriteWait => BRecheck
    case BRecheck => if t.path in s.binCache then BWriteUnlock(Some(s.binCache[t.path])) else BReadFile
    case BReadFile => if readable && t.path in w.files then BStore(w.files[t.path]) else BWriteUnlock(None)
    case BStore(bin) => BWriteUnlock(Some(bin))
    case BWriteUnlock(result) => RawReturned(t.call, result)
    case Done(result) => Done(result)
  }

  ghost function Next(w: World, s: State, i: nat, readable: bool): State
    requires i < |s.threads|
  {
    var t := s.threads[i];
    var t' := t.(pc := NextPC(w, s, t, readable));
    State(
      s.threads[i := t'],
      if t.pc.BStore? then s.binCache[t.path := t.pc.bin] else s.binCache,
      if t.pc.TStore? then s.templateCache[t.path := t.pc.raw] else s.templateCache,
      if t'.pc.BStore? then s.fileReads + multiset{t.path} else s.fileReads,
      if t'.pc.TStore? then s.parses + multiset{t.path} else s.parses,
      if t.pc.BReadFile? && !(readable && t.path in w.files) then s.failures + {t.path} else s.failures)
  }

  // ---------- what every step keeps ----------

  /** Two threads do not hold a lock together if either holds it for writing. */
  ghost predicate Compatible(t: Thread, u: Thread) {
    && (WritesBin(t) ==> !WritesBin(u) && !ReadsBin(u))
    && (WritesBin(u) ==> !ReadsBin(t))
    && (WritesTemplates(t) ==> !WritesTemplates(u) && !ReadsTemplates(u))
    && (WritesTemplates(u) ==> !ReadsTemplates(t))
  }

  ghost predicate Exclusive(s: State) {
    forall i, j :: 0 <= i < j < |s.threads| ==> Compatible(s.threads[i], s.threads[j])
  }

  lemma StepperCompatible(w: World, s: State, i: nat, j: nat, readable: bool)
    requires i < |s.threads| && j < |s.threads| && Enabled(s, i) && Compatible(s.threads[i], s.threads[j])
    ensures Compatible(Next(w, s, i, readable).threads[i], s.threads[j])
    ensures Compatible(s.threads[j], Next(w, s, i, readable).threads[i])
  {
    assert s.threads[j] in s.threads;
  }

  lemma NextKeepsExclusive(w: World, s: State, i: nat, readable: bool)
    requires i < |s.threads| && Exclusive(s) && Enabled(s, i)
    ensures Exclusive(Next(w, s, i, readable))
  {
    forall j | 0 <= j < |s.threads| && j != i
      ensures Compatible(Next(w, s, i, readable).threads[i], s.threads[j])
      ensures Compatible(s.threads[j], Next(w, s, i, readable).threads[i])
    {
      assert Compatible(s.threads[i], s.threads[j]) by {
        assert i < j || Compatible(s.threads[j], s.threads[i]);
      }
      StepperCompatible(w, s, i, j, readable);
    }
  }

  ghost predicate IsContent(w: World, path: string, bin: string) {
    path in w.files && w.files[path] == bin
  }

  ghost predicate IsTemplate(w: World, path: string, raw: string) {
    path in w.files && w.files[path] in w.parsed && w.parsed[w.files[path]] == raw
  }

  ghost predicate CachesRight(w: World, s: State) {
    && (forall p :: p in s.binCache ==> IsContent(w, p, s.binCache[p]))
    && (forall p :: p in s.templateCache ==> IsTemplate(w, p, s.templateCache[p]))
  }

  /** An error is due to a failed read or, for a template, to a content that does not parse. */
  ghost predicate Explained(w: World, s: State, t: Thread) {
    || t.path in s.failures
    || (t.call.TemplateCall? && t.path in w.files && w.files[t.path] !in w.parsed)
  }

  predicate Holds(cache: map<string, string>, path: string, value: string) {
    path in cache && cache[path] == value
  }

  ghost predicate RawRight(w: World, s: State, t: Thread, result: Option<string>) {
    if result.Some? then IsContent(w, t.path, result.value) && Holds(s.binCache, t.path, result.value)
    else Explained(w, s, t)
  }

  ghost predicate TemplateRight(w: World, s: State, t: Thread, result: Option<string>) {
    if result.Some? then IsTemplate(w, t.path, result.value) && Holds(s.templateCache, t.path, result.value)
    else Explained(w, s, t)
  }

  /** What a thread may rely on at each statement. */
  ghost predicate ThreadRight(w: World, s: State, t: Thread) {
    && (InGetRaw(t) && t.call.TemplateCall? ==> t.path !in s.templateCache)
    && match t.pc
       case TReadUnlock(cached) =>
         t.call.TemplateCall? && if cached.Some? then TemplateRight(w, s, t, cached) else t.path !in s.templateCache
       case TParse(bin) => t.call.TemplateCall? && RawRight(w, s, t, Some(bin)) && t.path !in s.templateCache
       case TStore(raw) => t.call.TemplateCall? && IsTemplate(w, t.path, raw) && t.path !in s.templateCache
       case TWriteUnlock(result) => t.call.TemplateCall? && TemplateRight(w, s, t, result)
       case BReadUnlock(cached) => if cached.Some? then RawRight(w, s, t, cached) else t.path !in s.binCache
       case BReadFile => t.path !in s.binCache
       case BStore(bin) => IsContent(w, t.path, bin) && t.path !in s.binCache
       case BWriteUnlock(result) => RawRight(w, s, t, result)
       case Done(result) => if t.call.RawCall? then RawRight(w, s, t, result) else TemplateRight(w, s, t, result)
       case _ => !InGetRaw(t) ==> t.call.TemplateCall?
  }

  ghost predicate ThreadsRight(w: World, s: State) {
    forall i :: 0 <= i < |s.threads| ==> ThreadRight(w, s, s.threads[i])
  }

  ghost predicate Storing(s: State, path: string) {
    exists i :: 0 <= i < |s.threads| && s.threads[i].pc.BStore? && s.threads[i].path == path
  }

  ghost predicate StoringTemplate(s: State, path: string) {
    exists i :: 0 <= i < |s.threads| && s.threads[i].pc.TStore? && s.threads[i].path == path
  }

  /** A file has been read once if its content is cached or about to be, and not at all otherwise;
      the same goes for parsing it. */
  ghost predicate CountsRight(s: State) {
    && (forall p :: s.fileReads[p] == if p in s.binCache || Storing(s, p) then 1 else 0)
    && (forall p :: s.parses[p] == if p in s.templateCache || StoringTemplate(s, p) then 1 else 0)
  }

  lemma CachesStayRight(w: World, s: State, i: nat, readable: bool)
    requires i < |s.threads| && CachesRight(w, s) && ThreadRight(w, s, s.threads[i])
    ensures CachesRight(w, Next(w, s, i, readable))
  {
  }

  lemma StepperRight(w: World, s: State, i: nat, readable: bool)
    requires i < |s.threads| && CachesRight(w, s) && ThreadRight(w, s, s.threads[i])
    ensures ThreadRight(w, Next(w, s, i, readable), Next(w, s, i, readable).threads[i])
  {
  }

  lemma OthersRight(w: World, s: State, i: nat, j: nat, readable: bool)
    requires i < |s.threads| && j < |s.threads| && i != j
    requires Exclusive(s) && ThreadsRight(w, s)
    ensures ThreadRight(w, Next(w, s, i, readable), s.threads[j])
  {
    assert ThreadRight(w, s, s.threads[i]) && ThreadRight(w, s, s.threads[j]);
  }

  lemma NextKeepsRight(w: World, s: State, i: nat, readable: bool)
    requires i < |s.threads| && Exclusive(s) && CachesRight(w, s) && ThreadsRight(w, s)
    ensures CachesRight(w, Next(w, s, i, readable)) && ThreadsRight(w, Next(w, s, i, readable))
  {
    CachesStayRight(w, s, i, readable);
    StepperRight(w, s, i, readable);
    forall j | 0 <= j < |s.threads| && j != i
      ensures ThreadRight(w, Next(w, s, i, readable), s.threads[j])
    {
      OthersRight(w, s, i, j, readable);
    }
  }

  /** Who is about to store what after a step. */
  lemma StoringAfter(w: World, s: State, i: nat, readable: bool, p: string)
    requires i < |s.threads| && Exclusive(s) && ThreadsRight(w, s)
    ensures
      var s', t, t' := Next(w, s, i, readable), s.threads[i], Next(w, s, i, readable).threads[i];
      && (Storing(s', p) <==> (Storing(s, p) && !(t.pc.BStore? && t.path == p)) || (t'.pc.BStore? && t.path == p))
      && (t'.pc.BStore? && t.path == p ==> p !in s.binCache && !Storing(s, p))
  {
    var s', t := Next(w, s, i, readable), s.threads[i];
    assert ThreadRight(w, s, t);
    if Storing(s, p) {
      var j :| 0 <= j < |s.threads| && s.threads[j].pc.BStore? && s.threads[j].path == p;
      assert j != i ==> s'.threads[j] == s.threads[j];
    }
    if s'.threads[i].pc.BStore? {
      assert s'.threads[i].path == t.path;
    }
  }

  lemma StoringTemplateAfter(w: World, s: State, i: nat, readable: bool, p: string)
    requires i < |s.threads| && Exclusive(s) && ThreadsRight(w, s)
    ensures
      var s', t, t' := Next(w, s, i, readable), s.threads[i], Next(w, s, i, readable).threads[i];
      && (StoringTemplate(s', p) <==>
            (StoringTemplate(s, p) && !(t.pc.TStore? && t.path == p)) || (t'.pc.TStore? && t.path == p))
      && (t'.pc.TStore? && t.path == p ==> p !in s.templateCache && !StoringTemplate(s, p))
  {
    var s', t := Next(w, s, i, readable), s.threads[i];
    assert ThreadRight(w, s, t);
    if StoringTemplate(s, p) {
      var j :| 0 <= j < |s.threads| && s.threads[j].pc.TStore? && s.threads[j].path == p;
      assert j != i ==> s'.threads[j] == s.threads[j];
    }
    if s'.threads[i].pc.TStore? {
      assert s'.threads[i].path == t.path;
    }
  }

  lemma NextKeepsCounts(w: World, s: State, i: nat, readable: bool)
    requires i < |s.threads| && Exclusive(s) && ThreadsRight(w, s) && CountsRight(s)
    ensures CountsRight(Next(w, s, i, readable))
  {
    var s' := Next(w, s, i, readable);
    forall p ensures s'.fileReads[p] == if p in s'.binCache || Storing(s', p) then 1 else 0 {
      StoringAfter(w, s, i, readable, p);
    }
    forall p ensures s'.parses[p] == if p in s'.templateCache || StoringTemplate(s', p) then 1 else 0 {
      StoringTemplateAfter(w, s, i, readable, p);
    }
  }

  // ---------- runs ----------

  ghost predicate Initial(s: State) {
    && (forall i :: 0 <= i < |s.threads| ==>
          s.threads[i].pc == if s.threads[i].call.RawCall? then BReadLock else TReadLock)
    && s.binCache == map[] && s.templateCache == map[]
    && s.fileReads == multiset{} && s.parses == multiset{} && s.failures == {}
  }

  datatype Choice = Choice(thread: nat, readable: bool)

  ghost predicate Step(w: World, s: State, c: Choice, s': State) {
    c.thread < |s.threads| && Enabled(s, c.thread) && s' == Next(w, s, c.thread, c.readable)
  }

  ghost predicate IsRun(w: World, choices: seq<Choice>, states: seq<State>) {
    && |states| == |choices| + 1
    && Initial(states[0])
    && forall n {:trigger choices[n]} :: 0 <= n < |choices| ==> Step(w, states[n], choices[n], states[n + 1])
  }

  ghost predicate Invariant(w: World, s: State) {
    Exclusive(s) && CachesRight(w, s) && ThreadsRight(w, s) && CountsRight(s)
  }

  lemma InitialInvariant(w: World, s: State)
    requires Initial(s)
    ensures Invariant(w, s)
  {
  }

  lemma NextKeepsInvariant(w: World, s: State, i: nat, readable: bool)
    requires Invariant(w, s) && i < |s.threads| && Enabled(s, i)
    ensures Invariant(w, Next(w, s, i, readable))
  {
    NextKeepsExclusive(w, s, i, readable);
    NextKeepsRight(w, s, i, readable);
    NextKeepsCounts(w, s, i, readable);
  }

  lemma {:induction false} RunKeepsInvariant(w: World, choices: seq<Choice>, states: seq<State>, n: nat)
    requires IsRun(w, choices, states) && n < |states|
    ensures Invariant(w, states[n])
  {
    if n == 0 {
      InitialInvariant(w, states[0]);
    } else {
      RunKeepsInvariant(w, choices, states, n - 1);
      assert Step(w, states[n - 1], choices[n - 1], states[n]);
      NextKeepsInvariant(w, states[n - 1], choices[n - 1].thread, choices[n - 1].readable);
    }
  }

  /** Under every interleaving: each successful getRaw returns the file's content, each successful
      getRawTemplate its parse, and no call fails without a failed read or an unparsable content. */
  lemma ReturnedResultsAreRight(w: World, choices: seq<Choice>, states: seq<State>, n: nat, i: nat)
    requires IsRun(w, choices, states) && n < |states| && i < |states[n].threads|
    requires states[n].threads[i].pc.Done?
    ensures
      var t := states[n].threads[i];
      match t.pc.result
      case Some(r) =>
        if t.call.RawCall? then IsContent(w, t.path, r) && Holds(states[n].binCache, t.path, r)
        else IsTemplate(w, t.path, r) && Holds(states[n].templateCache, t.path, r)
      case None => Explained(w, states[n], t)
  {
    RunKeepsInvariant(w, choices, states, n);
    assert ThreadRight(w, states[n], states[n].threads[i]);
  }

  /** Under every interleaving: each path is successfully read, and parsed, at most once. */
  lemma ReadAndParsedOnce(w: World, choices: seq<Choice>, states: seq<State>, n: nat, path: string)
    requires IsRun(w, choices, states) && n < |states|
    ensures states[n].fileReads[path] <= 1 && states[n].parses[path] <= 1
  {
    RunKeepsInvariant(w, choices, states, n);
  }

  ghost predicate Extends(before: map<string, string>, after: map<string, string>) {
    forall p :: p in before ==> p in after && after[p] == before[p]
  }

  lemma StepKeepsCached(w: World, s: State, c: Choice, s': State)
    requires Invariant(w, s) && Step(w, s, c, s')
    ensures Extends(s.binCache, s'.binCache) && Extends(s.templateCache, s'.templateCache)
  {
    assert ThreadRight(w, s, s.threads[c.thread]);
  }

  lemma RunStepKeepsCached(w: World, choices: seq<Choice>, states: seq<State>, n: nat)
    requires IsRun(w, choices, states) && n < |choices|
    ensures Extends(states[n].binCache, states[n + 1].binCache)
    ensures Extends(states[n].templateCache, states[n + 1].templateCache)
  {
    RunKeepsInvariant(w, choices, states, n);
    StepKeepsCached(w, states[n], choices[n], states[n + 1]);
  }

  /** Under every interleaving: what is cached stays cached, unchanged. */
  lemma {:induction false} CachedForGood(w: World, choices: seq<Choice>, states: seq<State>, m: nat, n: nat)
    requires IsRun(w, choices, states) && m <= n < |states|
    ensures Extends(states[m].binCache, states[n].binCache)
    ensures Extends(states[m].templateCache, states[n].templateCache)
  {
    if m == n {
    } else {
      CachedForGood(w, choices, states, m, n - 1);
      RunStepKeepsCached(w, choices, states, n - 1);
    }
  }

  // ---------- progress ----------

  ghost predicate Finished(s: State) {
    forall t :: t in s.threads ==> t.pc.Done?
  }

  lemma FindThread(s: State, t: Thread) returns (i: nat)
    requires t in s.threads
    ensures i < |s.threads| && s.threads[i] == t
  {
    i :| 0 <= i < |s.threads| && s.threads[i] == t;
  }

  /** While some call is in getRaw, some call can move: nobody waits there for the template lock. */
  lemma SomeRawCallMoves(s: State, t: Thread) returns (i: nat)
    requires t in s.threads && InGetRaw(t)
    ensures i < |s.threads| && Enabled(s, i)
  {
    var mover := t;
    if u :| u in s.threads && (WritesBin(u) || ReadsBin(u)) {
      mover := u;
    } else if u :| u in s.threads && u.pc.BWriteWait? {
      mover := u;
    }
    i := FindThread(s, mover);
  }

  /** Some unfinished call can always move, because the template lock is always taken before the
      bin lock. */
  lemma SomeCallMoves(s: State) returns (i: nat)
    requires !Finished(s)
    ensures i < |s.threads| && Enabled(s, i)
  {
    var mover :| mover in s.threads && !mover.pc.Done?;
    if t :| t in s.threads && InGetRaw(t) {
      i := SomeRawCallMoves(s, t);
      return;
    }
    if u :| u in s.threads && (WritesTemplates(u) || ReadsTemplates(u)) {
      mover := u;
    } else if u :| u in s.threads && u.pc.TWriteWait? {
      mover := u;
    }
    i := FindThread(s, mover);
  }

  /** An upper bound on the statements a call has left. */
  function Rank(pc: PC): nat {
    match pc
    case TReadLock => 18 case TLookup => 17 case TReadUnlock(_) => 16 case TWriteLock => 15
    case TWriteWait => 14 case TRecheck => 13
    case BReadLock => 12 case BLookup => 11 case BReadUnlock(_) => 10 case BWriteLock => 9
    case BWriteWait => 8 case BRecheck => 7 case BReadFile => 6 case BStore(_) => 5 case BWriteUnlock(_) => 4
    case TParse(_) => 3 case TStore(_) => 2 case TWriteUnlock(_) => 1
    case Done(_) => 0
  }

  ghost function Work(threads: seq<Thread>): nat {
    if threads == [] then 0 else Rank(threads[0].pc) + Work(threads[1..])
  }

  lemma {:induction false} WorkUpdated(threads: seq<Thread>, i: nat, t: Thread)
    requires i < |threads|
    ensures Work(threads[i := t]) == Work(threads) - Rank(threads[i].pc) + Rank(t.pc)
  {
    if i > 0 {
      WorkUpdated(threads[1..], i - 1, t);
      assert threads[i := t][1..] == threads[1..][i - 1 := t];
    } else {
      assert threads[0 := t][1..] == threads[1..];
    }
  }

  lemma {:induction false} WorkBounded(threads: seq<Thread>)
    ensures Work(threads) <= 18 * |threads|
  {
    if threads == [] {
    } else {
      WorkBounded(threads[1..]);
    }
  }

  lemma RankDrops(w: World, s: State, t: Thread, readable: bool)
    requires !t.pc.Done?
    ensures Rank(NextPC(w, s, t, readable)) < Rank(t.pc)
  {
  }

  lemma StepUsesWork(w: World, s: State, c: Choice, s': State)
    requires Step(w, s, c, s')
    ensures Work(s'.threads) < Work(s.threads)
    ensures |s'.threads| == |s.threads|
  {
    var t := s.threads[c.thread];
    RankDrops(w, s, t, c.readable);
    WorkUpdated(s.threads, c.thread, t.(pc := NextPC(w, s, t, c.readable)));
  }

  lemma RunStepUsesWork(w: World, choices: seq<Choice>, states: seq<State>, n: nat)
    requires IsRun(w, choices, states) && n < |choices|
    ensures Work(states[n + 1].threads) < Work(states[n].threads)
    ensures |states[n + 1].threads| == |states[n].threads|
  {
    assert Step(w, states[n], choices[n], states[n + 1]);
    StepUsesWork(w, states[n], choices[n], states[n + 1]);
  }

  lemma {:induction false} RunUsesUpWork(w: World, choices: seq<Choice>, states: seq<State>, n: nat)
    requires IsRun(w, choices, states) && n < |states|
    ensures Work(states[n].threads) + n <= Work(states[0].threads)
    ensures |states[n].threads| == |states[0].threads|
  {
    if n == 0 {
    } else {
      RunUsesUpWork(w, choices, states, n - 1);
      RunStepUsesWork(w, choices, states, n - 1);
    }
  }

  /** Every run is finite, and one that cannot go on has finished every call. */
  lemma EveryCallReturns(w: World, choices: seq<Choice>, states: seq<State>)
    requires IsRun(w, choices, states)
    ensures |choices| <= 18 * |states[0].threads|
    ensures
      var last := states[|choices|];
      (forall i :: 0 <= i < |last.threads| ==> !Enabled(last, i)) ==> Finished(last)
  {
    RunUsesUpWork(w, choices, states, |choices|);
    WorkBounded(states[0].threads);
    if !Finished(states[|choices|]) {
      var i := SomeCallMoves(states[|choices|]);
      assert Enabled(states[|choices|], i);
    }
  }

  // ---------- one call at a time ----------

  /** The provider as its callers see it when calls do not overlap. */
  class TemplateProvider {
    const world: World
    var binCache: map<string, string>
    var templateCache: map<string, string>

    ghost predicate Valid()
      reads this
    {
      && (forall p :: p in binCache ==> IsContent(world, p, binCache[p]))
      && (forall p :: p in templateCache ==> IsTemplate(world, p, templateCache[p]))
    }

    constructor (world: World)
      ensures this.world == world && Valid() && binCache == map[] && templateCache == map[]
    {
      this.world, binCache, templateCache := world, map[], map[];
    }

    /** The file's content; a failed read is an error and is not remembered. */
    method GetRaw(path: string, readable: bool) returns (bin: Option<string>)
      requires Valid()
      modifies this`binCache
      ensures Valid()
      ensures bin.Some? <==> path in old(binCache) || (readable && path in world.files)
      ensures bin.Some? ==> IsContent(world, path, bin.value) && binCache == old(binCache)[path := bin.value]
      ensures bin.None? ==> binCache == old(binCache)
    {
      if path !in binCache {
        if !(readable && path in world.files) {
          return None;
        }
        binCache := binCache[path := world.files[path]];
      }
      bin := Some(binCache[path]);
    }

    /** The file's parse; neither a failed read nor a content that does not parse is remembered as
        a template. */
    method GetRawTemplate(path: string, readable: bool) returns (raw: Option<string>)
      requires Valid()
      modifies this
      ensures Valid()
      ensures raw.Some? ==> IsTemplate(world, path, raw.value) && templateCache == old(templateCache)[path := raw.value]
      ensures raw.None? ==>
        && templateCache == old(templateCache) && path !in templateCache
        && ((path !in binCache && !(readable && path in world.files))
            || (path in binCache && binCache[path] !in world.parsed))
    {
      if path !in templateCache {
        var bin := GetRaw(path, readable);
        if bin.None? || bin.value !in world.parsed {
          return None;
        }
        templateCache := templateCache[path := world.parsed[bin.value]];
      }
      raw := Some(templateCache[path]);
    }
  }
}
