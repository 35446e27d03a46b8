/**
 XQUEUE: the lock-free ring between one producer (an application) and one
 consumer (kernel or device).  Every load and every store of one word of the
 channel is a step of its own, and the two sides interleave in any order: a
 command moves word by word, in whatever order its words are copied, and an
 index is read again wherever the code reads it again.

 `published` and `consumed` record what the two calls have returned so far:
 a command is published when the producer stores the new tail, and consumed
 when the consumer stores the new head.
 */
module XQueue {

  const RING: nat := 256
  const WORDS: nat := 5

  /** Operation, source address, target address, length and token. */
  type Command = c: seq<nat> | |c| == WORDS witness [0, 0, 0, 0, 0]

  /** Where the producer stands inside xqueue_submit_command. */
  datatype Producer =
    | Idle
    | TailRead(cmd: Command, tail: nat)                  // current_tail and next_tail are known
    | Storing(cmd: Command, tail: nat, done: set<nat>)   // there is room, and these words are stored

  /** Where the consumer stands inside xqueue_poll_completion. */
  datatype Consumer =
    | Waiting
    | HeadRead(head: nat)                                // head is known, tail not yet compared
    | NonEmpty                                           // head != tail was seen
    | Copying(head: nat, out: Command, done: set<nat>)   // head was read again, and these words are copied

  datatype State = State(
    ring: seq<Command>,
    head: nat,
    tail: nat,
    producer: Producer,
    consumer: Consumer,
    published: seq<Command>,
    consumed: seq<Command>)

  // The source masks with RING - 1, a power of two less one.
  function Next(i: nat): nat { (i + 1) % RING }

  function AllWords(): set<nat> { {0, 1, 2, 3, 4} }

  datatype Step =
    | SubmitStart(cmd: Command)
    | SubmitCheck
    | SubmitStore(word: nat)
    | SubmitPublish
    | PollStart
    | PollCheck
    | PollHead(was: Command)
    | PollCopy(word: nat)
    | PollRelease

  /** The program counters say which step a side may take next; the fences keep the last one after the words. */
  predicate Enabled(s: State, step: Step) {
    match step
    case SubmitStart(_) => s.producer.Idle?
    case SubmitCheck => s.producer.TailRead?
    case SubmitStore(w) => s.producer.Storing? && s.producer.tail < |s.ring| && w < WORDS && w !in s.producer.done
    case SubmitPublish => s.producer.Storing? && s.producer.done == AllWords()
    case PollStart => s.consumer.Waiting?
    case PollCheck => s.consumer.HeadRead?
    case PollHead(_) => s.consumer.NonEmpty?
    case PollCopy(w) => s.consumer.Copying? && s.consumer.head < |s.ring| && w < WORDS && w !in s.consumer.done
    case PollRelease => s.consumer.Copying? && s.consumer.done == AllWords()
  }

  predicate OfProducer(step: Step) {
    step.SubmitStart? || step.SubmitCheck? || step.SubmitStore? || step.SubmitPublish?
  }

  /** One access to one word of the channel; the caller's record starts out as it was. */
  function Do(s: State, step: Step): State
    requires Enabled(s, step)
  {
    match step
    case SubmitStart(cmd) => s.(producer := TailRead(cmd, s.tail))
    case SubmitCheck =>
      if Next(s.producer.tail) == s.head then s.(producer := Idle)
      else s.(producer := Storing(s.producer.cmd, s.producer.tail, {}))
    case SubmitStore(w) =>
      var p := s.producer;
      s.(ring := s.ring[p.tail := s.ring[p.tail][w := p.cmd[w]]], producer := p.(done := p.done + {w}))
    case SubmitPublish =>
      s.(tail := Next(s.producer.tail),
         published := s.published + [s.producer.cmd],
         producer := Idle)
    case PollStart => s.(consumer := HeadRead(s.head))
    case PollCheck => s.(consumer := if s.consumer.head == s.tail then Waiting else NonEmpty)
    case PollHead(was) => s.(consumer := Copying(s.head, was, {}))
    case PollCopy(w) =>
      var c := s.consumer;
      s.(consumer := Copying(c.head, c.out[w := s.ring[c.head][w]], c.done + {w}))
    case PollRelease =>
      s.(head := Next(s.consumer.head),
         consumed := s.consumed + [s.consumer.out],
         consumer := Waiting)
  }

  predicate Start(s: State) {
    && |s.ring| == RING
    && s.head == s.tail < RING
    && s.producer.Idle? && s.consumer.Waiting?
    && s.published == [] && s.consumed == []
  }

  /** Commands published and not yet consumed. */
  function Pending(s: State): int { |s.published| - |s.consumed| }

  /** The ring slot of the k-th command ever published, when indices start at `base`. */
  function Slot(base: nat, k: nat): nat { (base + k) % RING }

  ghost predicate Inv(s: State, base: nat) {
    && |s.ring| == RING
    && s.consumed <= s.published
    && 0 <= Pending(s) < RING
    && s.head == Slot(base, |s.consumed|)
    && s.tail == Slot(base, |s.published|)
    && (forall k :: |s.consumed| <= k < |s.published| ==> s.ring[Slot(base, k)] == s.published[k])
    && ProducerInv(s)
    && ConsumerInv(s)
  }

  ghost predicate ProducerInv(s: State)
    requires |s.ring| == RING
  {
    match s.producer
    case Idle => true
    case TailRead(_, t) => t == s.tail
    case Storing(cmd, t, done) => t == s.tail < RING && Pending(s) < RING - 1 && Agree(s.ring[t], cmd, done)
  }

  ghost predicate ConsumerInv(s: State)
    requires s.consumed <= s.published
  {
    match s.consumer
    case Waiting => true
    case HeadRead(h) => h == s.head
    case NonEmpty => Pending(s) > 0
    case Copying(h, out, done) => h == s.head && Pending(s) > 0 && Agree(out, s.published[|s.consumed|], done)
  }

  /** The two commands have the same words in these places. */
  predicate Agree(c: Command, d: Command, done: set<nat>) {
    forall w :: w in done ==> w < WORDS && c[w] == d[w]
  }

  lemma WholeCommand(c: Command, d: Command)
    requires Agree(c, d, AllWords())
    ensures c == d
  {
    assert forall w :: 0 <= w < WORDS ==> w in AllWords();
  }

  lemma InvStart(s: State)
    requires Start(s)
    ensures Inv(s, s.head)
  {
  }

  /** The slot being stored holds no command that is still to be read. */
  lemma StoreHitsNoUnreadSlot(s: State, base: nat, k: nat)
    requires Inv(s, base) && s.producer.Storing?
    requires |s.consumed| <= k < |s.published|
    ensures Slot(base, k) != s.producer.tail
  {
    assert 0 < |s.published| - k < RING;
  }

  lemma NextSlot(base: nat, k: nat)
    ensures Next(Slot(base, k)) == Slot(base, k + 1)
  {
  }

  lemma ProducerStep(s: State, step: Step, base: nat)
    requires Inv(s, base) && Enabled(s, step) && OfProducer(step)
    ensures Inv(Do(s, step), base)
  {
    match step
    case SubmitStart(_) =>
    case SubmitCheck => RefusalsAreExact(s, base);
    case SubmitStore(_) =>
      forall k | |s.consumed| <= k < |s.published|
        ensures Slot(base, k) != s.producer.tail
      {
        StoreHitsNoUnreadSlot(s, base, k);
      }
    case SubmitPublish =>
      NextSlot(base, |s.published|);
      WholeCommand(s.ring[s.producer.tail], s.producer.cmd);
  }

  lemma ConsumerStep(s: State, step: Step, base: nat)
    requires Inv(s, base) && Enabled(s, step) && !OfProducer(step)
    ensures Inv(Do(s, step), base)
  {
    match step
    case PollStart =>
    case PollCheck => RefusalsAreExact(s, base);
    case PollHead(_) =>
    case PollCopy(_) => assert s.ring[Slot(base, |s.consumed|)] == s.published[|s.consumed|];
    case PollRelease =>
      NextSlot(base, |s.consumed|);
      WholeCommand(s.consumer.out, s.published[|s.consumed|]);
  }

  /** A run is any sequence of enabled steps, from either side in any order. */
  ghost predicate Runs(s: State, steps: seq<Step>, t: State)
    decreases |steps|
  {
    if steps == [] then s == t
    else Enabled(s, steps[0]) && Runs(Do(s, steps[0]), steps[1..], t)
  }

  lemma {:induction false} InvRun(s: State, steps: seq<Step>, t: State, base: nat)
    requires Inv(s, base) && Runs(s, steps, t)
    ensures Inv(t, base)
    decreases |steps|
  {
    if steps != [] {
      if OfProducer(steps[0]) {
        ProducerStep(s, steps[0], base);
      } else {
        ConsumerStep(s, steps[0], base);
      }
      InvRun(Do(s, steps[0]), steps[1..], t, base);
    }
  }

  /**
   Main result: after every interleaving the consumed commands are a prefix of
   the published ones, in order; at most RING - 1 are pending; and the ring
   still holds each pending command, so none was overwritten, torn or lost.
   */
  lemma {:induction false} RingIsFifo(s: State, steps: seq<Step>, t: State)
    requires Start(s) && Runs(s, steps, t)
    ensures t.consumed <= t.published
    ensures Pending(t) <= RING - 1
    ensures |t.ring| == RING
    ensures forall k :: |t.consumed| <= k < |t.published| ==> t.ring[Slot(s.head, k)] == t.published[k]
  {
    InvStart(s);
    InvRun(s, steps, t, s.head);
  }

  lemma SameSlot(a: nat, b: nat)
    requires a <= b < a + RING
    ensures a % RING == b % RING <==> a == b
    ensures (a + RING) % RING == a % RING
  {
  }

  /** The two refusals are exact: "full" means 255 pending, "empty" means none, at the compared instant. */
  lemma RefusalsAreExact(s: State, base: nat)
    requires Inv(s, base)
    ensures s.producer.TailRead? ==> (Do(s, SubmitCheck).producer.Idle? <==> Pending(s) == RING - 1)
    ensures s.consumer.HeadRead? ==> (Do(s, PollCheck).consumer.Waiting? <==> Pending(s) == 0)
  {
    var a, b := base + |s.consumed|, base + |s.published|;
    SameSlot(a, b);
    NextSlot(base, |s.published|);
    if Pending(s) < RING - 1 {
      SameSlot(a, b + 1);
    } else {
      assert Next(s.tail) == (a + RING) % RING;
    }
  }
}
