// The double-buffered dump pipeline of nxdt_rw_poc.c as a step machine.
//
// A reader thread executes a straight-line program of actions (what its nested loops do for one
// concrete source); a writer thread drains the one-slot shared object. Each mutex-held section is
// one step. `condvarWakeAll` follows `mutexUnlock` in the code, so it is a step of its own unless
// the configuration says that unlocking and waking are atomic; waits are guarded by `if` in the
// code, and by a re-checking `while` when the configuration says so.

module Pipeline {
  import opened Bytes

  // What the reader does, in program order.
  datatype Action =
    | Close               // loop head: cancellation check; on SD/UMS also wait, then close the output file
    | Open(file: nat)     // open the next output file (USB: wait, then announce it to the host)
    | Chunk(data: seq<byte>) // read one block into buf1, wait, publish it, swap the buffers
    | Check               // after a file: leave the loop when any flag is set
    | Drain               // wait until the last block has been written
    | Enter               // recursive call: buf1 and buf2 are passed by value; listing the directory may fail
    | Leave               // return from it, closing the output file

  // usb: output goes to the USB host. atomicWake: unlock and wake are one step. recheck: waits are
  // `while` loops. early: the reader loop stops once everything has been written (RomFS only).
  // closes: the reader owns the output file and closes it when it ends (extracted dumps).
  datatype Config = Config(usb: bool, atomicWake: bool, recheck: bool, early: bool, closes: bool)

  // The state of the output: which file is current, and what each file holds.
  datatype Output = Output(cur: Option<nat>, files: map<nat, seq<byte>>)

  datatype Job = Job(cfg: Config, prog: seq<Action>, start: Output)

  datatype ReaderPc = Start | Run | Ready | Blocked | Resume | Signal | Alarm | End | Done

  datatype WriterPc = WHead | WSleepy | WBlocked | WResume | WSignal | WDone

  datatype State = State(
    ip: nat, r: ReaderPc, w: WriterPc,
    bufs: seq<seq<byte>>, buf1: nat, buf2: nat, frames: seq<(nat, nat)>, freed: bool,
    data: nat, size: nat, written: nat,
    out: Output,
    readError: bool, writeError: bool, cancelled: bool,
    log: seq<byte>,     // history: every byte handed to fwrite/usbSendFileData, in order
    torn: bool,         // history: a block was written out of freed memory
    skipped: bool)      // history: the reader took the early exit

  // One step of one thread, with the environment's choices: whether an I/O operation succeeds,
  // and what freed memory contains.
  datatype Step =
    | Reader(ok: bool)
    | ReaderGivesUp      // an allocation fails before the loop: no wake-up is sent
    | Writer(ok: bool, junk: seq<byte>)
    | Cancel             // the user or the applet asks to stop

  // -------------------------------------------------------------------------------------------
  // What a program means, independently of any schedule

  function Effect(cfg: Config, o: Output, a: Action): Output {
    match a
    case Open(f) => Output(Some(f), o.files[f := []])
    case Close => if cfg.usb then o else o.(cur := None)
    case Leave => if cfg.usb then o else o.(cur := None)
    case Chunk(d) => Append(o, d)
    case _ => o
  }

  function Append(o: Output, d: seq<byte>): Output {
    if o.cur.Some? && o.cur.value in o.files then
      o.(files := o.files[o.cur.value := o.files[o.cur.value] + d])
    else o
  }

  // The output after executing the first k actions one after the other.
  function After(job: Job, k: nat): Output
    requires k <= |job.prog|
  {
    if k == 0 then job.start else Effect(job.cfg, After(job, k - 1), job.prog[k - 1])
  }

  // The bytes the first k actions publish, in order.
  function DataTo(job: Job, k: nat): seq<byte>
    requires k <= |job.prog|
  {
    if k == 0 then []
    else DataTo(job, k - 1) + (if job.prog[k - 1].Chunk? then job.prog[k - 1].data else [])
  }

  function Depth(job: Job, k: nat): int
    requires k <= |job.prog|
  {
    if k == 0 then 0
    else
      var a := job.prog[k - 1];
      Depth(job, k - 1) + (if a.Enter? then 1 else if a.Leave? then -1 else 0)
  }

  function Total(job: Job): nat { |DataTo(job, |job.prog|)| }

  // The shape every reader loop has.
  ghost predicate WellFormed(job: Job) {
    && (job.start.cur.Some? ==> job.start.cur.value in job.start.files)
    && (forall k :: 0 <= k < |job.prog| ==> ActionOk(job, k))
    && (job.cfg.early ==> EarlyOk(job))
    && (if job.cfg.closes then Drained(job) else Plain(job))
  }

  // A raw reader only publishes blocks; its output is opened and closed by the caller.
  ghost predicate Plain(job: Job) {
    forall k :: 0 <= k < |job.prog| ==> job.prog[k].Chunk?
  }

  // The early exit jumps to the final drain; it is used by a flat loop that opens each file once.
  ghost predicate EarlyOk(job: Job) {
    && |job.prog| > 0 && job.prog[|job.prog| - 1].Drain?
    && job.start.files == map[]
    && (forall k :: 0 <= k < |job.prog| ==> !job.prog[k].Enter? && !job.prog[k].Leave?)
    && (forall i, j :: 0 <= i < j < |job.prog| && job.prog[i].Open? && job.prog[j].Open? ==>
                         job.prog[i].file != job.prog[j].file)
  }

  ghost predicate ActionOk(job: Job, k: nat)
    requires k < |job.prog|
  {
    match job.prog[k]
    case Chunk(d) =>
      && d != [] && After(job, k).cur.Some?
      && (k > 0 ==> job.prog[k - 1].Open? || job.prog[k - 1].Chunk?)
    case Open(_) => k > 0 && job.prog[k - 1].Close?
    case Leave => k > 0 && job.prog[k - 1].Drain? && Depth(job, k) > 0
    case Drain => k + 1 == |job.prog| || job.prog[k + 1].Leave?
    case _ => true
  }

  // The reader waits for the slot to drain before it ends (extracted and recursive dumps).
  predicate Drained(job: Job) {
    |job.prog| > 0 && (job.prog[|job.prog| - 1].Drain? || job.prog[|job.prog| - 1].Leave?)
  }

  // Either remedy for the gap between unlocking and waking.
  predicate Safe(cfg: Config) { cfg.atomicWake || cfg.recheck }

  // -------------------------------------------------------------------------------------------
  // Steps

  function Initial(job: Job): State {
    State(0, Start, WHead, [[], []], 0, 1, [], false, 0, 0, 0, job.start,
          false, false, false, [], false, false)
  }

  predicate Flagged(s: State) { s.readError || s.writeError || s.cancelled }

  // condvarWait holds the mutex until it has joined the queue.
  predicate MutexFree(s: State) { !s.w.WSleepy? }

  function WakeReader(s: State): State { if s.r.Blocked? then s.(r := Resume) else s }

  function WakeWriter(s: State): State { if s.w.WBlocked? then s.(w := WResume) else s }

  // Does the reader's wait guard hold? The final drain does not look at write_error.
  predicate MustWait(a: Action, s: State) { s.size > 0 && (!s.writeError || a.Drain?) }

  // The rest of the reader's critical section, once the wait is over. usb.c refuses a file while
  // bytes of the one before are still missing.
  function Proceed(job: Job, s: State, ok: bool): State
    requires s.ip < |job.prog|
  {
    var a := job.prog[s.ip];
    if s.writeError && !a.Drain? then s.(r := End)
    else if a.Chunk? then
      var t := s.(data := s.buf1, size := |a.data|, buf1 := s.buf2, buf2 := s.buf1, ip := s.ip + 1);
      if job.cfg.atomicWake then WakeWriter(t.(r := Run)) else t.(r := Signal)
    else if a.Open? && (!ok || (job.cfg.usb && s.written != |DataTo(job, s.ip)|)) then
      s.(readError := true, r := Alarm)
    else s.(out := Effect(job.cfg, s.out, a), ip := s.ip + 1, r := Run)
  }

  // The reader outside the mutex, at the action it is about to execute.
  function Advance(job: Job, s: State, ok: bool): State
    requires s.ip < |job.prog|
  {
    var a := job.prog[s.ip];
    match a
    case Close =>
      if job.cfg.early && s.written >= Total(job) then s.(ip := |job.prog| - 1, skipped := true)
      else if s.cancelled then s.(r := Alarm)
      else if job.cfg.usb then s.(ip := s.ip + 1)
      else s.(r := Ready)
    case Open(f) =>
      if !ok then s.(readError := true, r := Alarm)
      else if job.cfg.usb then s.(r := Ready)
      else s.(out := Effect(job.cfg, s.out, a), ip := s.ip + 1)
    case Chunk(d) =>
      if s.cancelled then s.(r := Alarm)
      else if !ok then s.(readError := true, r := Alarm)
      else if s.buf1 < |s.bufs| then s.(bufs := s.bufs[s.buf1 := d], r := Ready)
      else s
    case Check => if Flagged(s) then s.(r := End) else s.(ip := s.ip + 1)
    case Drain => if Flagged(s) then s.(r := End) else s.(r := Ready)
    case Enter =>
      if !ok then s.(readError := true, r := Alarm)
      else s.(frames := s.frames + [(s.buf1, s.buf2)], ip := s.ip + 1)
    case Leave =>
      if s.frames == [] then s
      else
        var top := s.frames[|s.frames| - 1];
        s.(out := Closed(job, s), buf1 := top.0, buf2 := top.1, frames := s.frames[..|s.frames| - 1], ip := s.ip + 1)
  }

  // A reader refuses to dump nothing at all.
  function ReaderStep(job: Job, s: State, ok: bool): Option<State> {
    match s.r
    case Start => Some(if ok && Total(job) > 0 then s.(r := Run) else s.(readError := true, r := Alarm))
    case Run => Some(if s.ip >= |job.prog| then s.(r := End) else Advance(job, s, ok))
    case Ready =>
      if !MutexFree(s) || s.ip >= |job.prog| then None
      else Some(if MustWait(job.prog[s.ip], s) then s.(r := Blocked) else Proceed(job, s, ok))
    case Blocked => None
    case Resume =>
      if !MutexFree(s) || s.ip >= |job.prog| then None
      else if job.cfg.recheck && MustWait(job.prog[s.ip], s) then Some(s.(r := Blocked))
      else Some(Proceed(job, s, ok))
    case Signal => Some(WakeWriter(s.(r := Run)))
    case Alarm => Some(WakeWriter(s.(r := End)))
    case End => Some(Finish(job, s))
    case Done => None
  }

  // The output file is closed, if there is one; all output is deleted when something went wrong.
  function Closed(job: Job, s: State): Output {
    if job.cfg.closes && !job.cfg.usb && s.out.cur.Some? then Output(None, if Flagged(s) then map[] else s.out.files)
    else s.out
  }

  // Cleanup: close the output file, free both buffers.
  function Finish(job: Job, s: State): State {
    s.(out := Closed(job, s), freed := true, r := Done)
  }

  // The writer's critical section, once its wait is over. Writing nothing to a file succeeds;
  // sending nothing over USB is refused.
  function Act(job: Job, s: State, ok: bool, junk: seq<byte>): Option<State> {
    if s.readError || s.cancelled || (!job.cfg.usb && s.out.cur.None?) then Some(s.(w := WDone))
    else if (if s.size == 0 then job.cfg.usb else !ok) then
      var t := s.(writeError := true);
      Some(if job.cfg.atomicWake then WakeReader(t.(w := WDone)) else t.(w := WSignal))
    else if s.freed && |junk| != s.size then None
    else if s.data >= |s.bufs| || s.size > |s.bufs[s.data]| then None
    else
      var bytes := if s.freed then junk else s.bufs[s.data][..s.size];
      var t := s.(log := s.log + bytes, written := s.written + s.size, out := Append(s.out, bytes),
                  size := 0, torn := s.torn || (s.freed && s.size > 0));
      Some(if job.cfg.atomicWake then WakeReader(t.(w := WHead)) else t.(w := WSignal))
  }

  function WriterStep(job: Job, s: State, ok: bool, junk: seq<byte>): Option<State> {
    match s.w
    case WHead =>
      if s.written >= Total(job) then Some(s.(w := WDone))
      else if s.size == 0 && !s.readError then Some(s.(w := WSleepy))
      else Act(job, s, ok, junk)
    case WSleepy => Some(s.(w := WBlocked))
    case WBlocked => None
    case WResume =>
      if job.cfg.recheck && s.size == 0 && !s.readError then Some(s.(w := WSleepy))
      else Act(job, s, ok, junk)
    case WSignal => Some(WakeReader(s.(w := if s.writeError then WDone else WHead)))
    case WDone => None
  }

  function Apply(job: Job, s: State, step: Step): Option<State> {
    match step
    case Reader(ok) => ReaderStep(job, s, ok)
    case ReaderGivesUp => if s.r.Start? then Some(s.(readError := true, r := End)) else None
    case Writer(ok, junk) => WriterStep(job, s, ok, junk)
    case Cancel => if MutexFree(s) then Some(s.(cancelled := true)) else None
  }

  // The state a schedule leads to; None when some step of it is not enabled.
  function Exec(job: Job, steps: seq<Step>): Option<State> {
    if steps == [] then Some(Initial(job))
    else
      match Exec(job, steps[..|steps| - 1])
      case None => None
      case Some(s) => Apply(job, s, steps[|steps| - 1])
  }

  ghost predicate Reachable(job: Job, s: State) {
    exists steps :: Exec(job, steps) == Some(s)
  }

  // spanDumpThreads reports success when both threads have been joined and no flag is set.
  predicate ReportsSuccess(s: State) { s.r.Done? && s.w.WDone? && !Flagged(s) }
}
