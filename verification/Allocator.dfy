/** The agent's bump allocator: threads racing through a load and compare-exchange loop on one counter. */
module Allocator {
  import opened Arithmetic

  const HEAP_SIZE := 512 * 1024

  /** A requested layout; alignments are powers of two, of which only being positive matters here. */
  datatype Layout = Layout(align: nat, size: nat)
  type layout = l: Layout | l.align > 0 witness Layout(1, 0)

  /** (n + align - 1) & !(align - 1). */
  function AlignUp(n: nat, align: nat): (r: nat)
    requires align > 0
    ensures r % align == 0 && n <= r < n + align
  {
    var m := n + align - 1;
    DivMod(m, align);
    m - m % align
  }

  lemma DivMod(m: nat, a: nat)
    requires a > 0
    ensures (m - m % a) % a == 0
  {
    var q := m / a;
    assert m - m % a == q * a;
    Multiple(q, a);
  }

  // ----- one thread's call, and all of them -----

  /** A call between its load and its last compare-exchange: what it wants and the counter value it holds. */
  datatype Call = Call(want: layout, current: nat)

  /** A finished call: the offset it got, or none. */
  datatype Outcome = Granted(want: layout, at: nat) | Refused(want: layout)

  /** `held` is every value the counter has had; a relaxed load may return any of them. */
  datatype State = State(next: nat, held: set<nat>, calls: map<nat, Call>, log: seq<Outcome>)

  /** A thread loads the counter and enters its loop, or goes once round it; `seen` is what a load or a failed exchange yields. */
  datatype Step = Load(thread: nat, want: layout, seen: nat) | Attempt(thread: nat, seen: nat)

  const INITIAL := State(0, {0}, map[], [])

  predicate Enabled(s: State, step: Step) {
    step.seen in s.held && (step.Load? <==> step.thread !in s.calls)
  }

  function Apply(s: State, step: Step): State
    requires Enabled(s, step)
  {
    match step
    case Load(thread, want, seen) => s.(calls := s.calls[thread := Call(want, seen)])
    case Attempt(thread, seen) =>
      var Call(want, current) := s.calls[thread];
      var aligned := AlignUp(current, want.align);
      var next := aligned + want.size;
      if next > HEAP_SIZE then s.(calls := s.calls - {thread}, log := s.log + [Refused(want)])
      else if s.next == current then
        State(next, s.held + {next}, s.calls - {thread}, s.log + [Granted(want, aligned)])
      else s.(calls := s.calls[thread := Call(want, seen)])
  }

  /** The state after a schedule; a step that is not enabled does nothing. */
  function Run(steps: seq<Step>): State {
    if steps == [] then INITIAL
    else
      var p, last := Run(steps[..|steps| - 1]), steps[|steps| - 1];
      if Enabled(p, last) then Apply(p, last) else p
  }

  // ----- the sequential allocator -----

  /** Where the next free byte is after the calls of a log ran one after the other. */
  function NextAfter(log: seq<Outcome>): nat {
    if log == [] then 0
    else
      var last := log[|log| - 1];
      if last.Granted? then last.at + last.want.size else NextAfter(log[..|log| - 1])
  }

  /** The outcome a call has when it runs alone with the counter at `next`. */
  function Alone(next: nat, want: layout): Outcome {
    var at := AlignUp(next, want.align);
    if at + want.size > HEAP_SIZE then Refused(want) else Granted(want, at)
  }

  /** Every outcome is what a lone caller would have got after the calls logged before it. */
  predicate Sequential(log: seq<Outcome>) {
    forall i :: 0 <= i < |log| ==> log[i] == Alone(NextAfter(log[..i]), log[i].want)
  }

  lemma AlignUpMonotone(m: nat, n: nat, align: nat)
    requires m <= n && align > 0
    ensures AlignUp(m, align) <= AlignUp(n, align)
  {
    var a, b := AlignUp(m, align), AlignUp(n, align);
    if a > b {
      SameMultiple(a, b, align);
    }
  }

  /** Two multiples less than one step apart are the same. */
  lemma SameMultiple(a: nat, b: nat, align: nat)
    requires align > 0 && a % align == 0 && b % align == 0 && b <= a < b + align
    ensures a == b
  {
    Gap(a / align, b / align, align);
    Gap(b / align, a / align, align);
  }

  predicate Good(s: State) {
    && Sequential(s.log) && s.next == NextAfter(s.log) && s.next in s.held
    && (forall v :: v in s.held ==> v <= s.next)
    && (forall t :: t in s.calls ==> s.calls[t].current in s.held)
  }

  lemma LogStep(log: seq<Outcome>, o: Outcome)
    requires Sequential(log) && o == Alone(NextAfter(log), o.want)
    ensures Sequential(log + [o])
    ensures NextAfter(log + [o]) == if o.Granted? then o.at + o.want.size else NextAfter(log)
  {
    hide Alone, NextAfter;
    var all := log + [o];
    assert all[..|log|] == log;
    forall i | 0 <= i < |all|
      ensures all[i] == Alone(NextAfter(all[..i]), all[i].want)
    {
      assert i < |log| ==> all[..i] == log[..i];
    }
    LastDecides(log, o);
  }

  lemma LastDecides(log: seq<Outcome>, o: Outcome)
    ensures NextAfter(log + [o]) == if o.Granted? then o.at + o.want.size else NextAfter(log)
  {
    assert (log + [o])[..|log|] == log;
  }

  lemma StepIsGood(s: State, step: Step)
    requires Good(s) && Enabled(s, step)
    ensures Good(Apply(s, step))
  {
    hide Sequential, NextAfter, AlignUp;
    if step.Attempt? {
      var Call(want, current) := s.calls[step.thread];
      AlignUpMonotone(current, s.next, want.align);
      var o := Alone(s.next, want);
      if AlignUp(current, want.align) + want.size > HEAP_SIZE || s.next == current {
        LogStep(s.log, o);
      }
    }
  }

  /**
   * Whatever the interleaving, and however stale the loads, the finished calls are those of a sequential allocator run
   * in the order of the log: each grant starts at the first aligned byte after the grants before it, and a call is
   * refused only if it does not fit at that moment.
   */
  lemma {:induction false} EveryRunIsSequential(steps: seq<Step>)
    ensures Good(Run(steps))
  {
    if steps != [] {
      var init, last := steps[..|steps| - 1], steps[|steps| - 1];
      EveryRunIsSequential(init);
      if Enabled(Run(init), last) {
        StepIsGood(Run(init), last);
      }
    }
  }

  /** Later grants start no earlier than earlier ones end. */
  lemma {:induction false} GrantsAscend(log: seq<Outcome>, i: nat, j: nat)
    requires Sequential(log) && i < j <= |log| && log[i].Granted?
    ensures log[i].at + log[i].want.size <= NextAfter(log[..j])
    decreases j
  {
    hide NextAfter, AlignUp;
    var o := log[j - 1];
    assert log[..j] == log[..j - 1] + [o];
    LastDecides(log[..j - 1], o);
    if i < j - 1 {
      GrantsAscend(log, i, j - 1);
      assert o == Alone(NextAfter(log[..j - 1]), o.want);
    }
  }

  /** Granted regions are inside the heap, aligned in offset, and pairwise disjoint. */
  lemma RegionsAreSafe(steps: seq<Step>, i: nat, j: nat)
    requires var log := Run(steps).log; i < j < |log| && log[i].Granted? && log[j].Granted?
    ensures var a, b := Run(steps).log[i], Run(steps).log[j];
            && a.at % a.want.align == 0 && a.at + a.want.size <= HEAP_SIZE
            && b.at % b.want.align == 0 && b.at + b.want.size <= HEAP_SIZE
            && a.at + a.want.size <= b.at
  {
    var log := Run(steps).log;
    EveryRunIsSequential(steps);
    GrantsAscend(log, i, j);
    assert log[i] == Alone(NextAfter(log[..i]), log[i].want);
    assert log[j] == Alone(NextAfter(log[..j]), log[j].want);
  }

  lemma MultipleShifts(base: nat, at: nat, align: nat)
    requires align > 0 && at % align == 0
    ensures (base + at) % align == 0 <==> base % align == 0
  {
    var q := at / align;
    assert at == q * align;
    AddMultiples(base, q, align);
  }

  /**
   * The address a caller gets, the heap's base plus the offset granted, is aligned exactly when the base is; the heap's
   * own alignment of 16 settles that only up to 16.
   */
  lemma AddressAlignedIff(base: nat, steps: seq<Step>, i: nat)
    requires var log := Run(steps).log; i < |log| && log[i].Granted?
    ensures var a := Run(steps).log[i]; (base + a.at) % a.want.align == 0 <==> base % a.want.align == 0
  {
    var log := Run(steps).log;
    EveryRunIsSequential(steps);
    assert log[i] == Alone(NextAfter(log[..i]), log[i].want);
    MultipleShifts(base, log[i].at, log[i].want.align);
  }

  /** A heap at 16 meets its own alignment, and the first caller to ask for 32 gets an address that is not aligned. */
  lemma MisalignedGrant()
    ensures var base, log := 16, Run([Load(0, Layout(32, 8), 0), Attempt(0, 0)]).log;
            base % 16 == 0 && log == [Granted(Layout(32, 8), 0)] && (base + log[0].at) % log[0].want.align != 0
  {
    hide AlignUp;
    var steps := [Load(0, Layout(32, 8), 0), Attempt(0, 0)];
    assert steps[..1] == [steps[0]] && steps[..1][..0] == [];
    assert Run(steps[..1]) == Apply(INITIAL, steps[0]);
    FirstByte(32);
  }

  lemma FirstByte(align: nat)
    requires align > 0
    ensures AlignUp(0, align) == 0
  {
    SameMultiple(AlignUp(0, align), 0, align);
  }
}
