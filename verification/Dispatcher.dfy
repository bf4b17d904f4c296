/** Scheme dispatch under a counting semaphore (pkg/prober/dispatcher.go). */
module Dispatcher {
  import opened Bytes
  import opened Targets

  /** An error category; the empty string is success. */
  type Category = Str

  /** Any protocol prober; what it does to the network is not modelled. */
  type ProbeFunc = Target -> Category

  function Timeout(): Category { Ascii("timeout") }

  function Unknown(): Category { Ascii("unknown_error") }

  /** The semaphore made for a configured concurrency: none unless it is positive. */
  function Semaphore(maxConcurrency: int): Option<nat>
  {
    if maxConcurrency > 0 then Some(maxConcurrency) else None
  }

  /** The configured concurrency, twice the number of workers unless set. */
  function MaxConcurrentProbes(numWorkers: int, configured: Option<int>): int
  {
    if configured.Some? then configured.value else numWorkers * 2
  }

  /** The handler for a target: by its scheme, else by the scheme parsed from its address. */
  function Resolve(probers: map<Str, ProbeFunc>, target: Target, parsed: Option<Str>): Option<ProbeFunc>
  {
    if target.scheme in probers then Some(probers[target.scheme])
    else if parsed.Some? && parsed.value != [] && parsed.value in probers then Some(probers[parsed.value])
    else None
  }

  /** Which handler is found: that of the target's own scheme goes first, whatever the address says; that of the
      address's scheme comes second; there is none exactly when neither is registered. */
  lemma OwnSchemeFirst(probers: map<Str, ProbeFunc>, target: Target, parsed: Option<Str>)
    ensures target.scheme in probers ==> Resolve(probers, target, parsed) == Some(probers[target.scheme])
    ensures target.scheme !in probers && parsed.Some? && parsed.value != [] && parsed.value in probers ==>
      Resolve(probers, target, parsed) == Some(probers[parsed.value])
    ensures Resolve(probers, target, parsed) == None <==>
      target.scheme !in probers && (parsed == None || parsed.value == [] || parsed.value !in probers)
  {
  }

  /** Unless configured, there are twice as many slots as workers. */
  lemma DefaultSlots(numWorkers: nat)
    ensures Semaphore(MaxConcurrentProbes(numWorkers, None)) == if numWorkers == 0 then None else Some(2 * numWorkers)
  {
  }

  /** Neither a timeout nor an unknown scheme passes for a success. */
  lemma FailuresAreNamed()
    ensures Timeout() != [] && Unknown() != []
  {
  }

  class Dispatcher {
    var probers: map<Str, ProbeFunc>
    const sem: Option<nat>
    var tokens: nat

    predicate Valid()
      reads this
    {
      if sem.Some? then tokens <= sem.value else tokens == 0
    }

    constructor (maxConcurrency: int)
      ensures Valid() && probers == map[] && tokens == 0 && sem == Semaphore(maxConcurrency)
    {
      probers, tokens := map[], 0;
      sem := if maxConcurrency > 0 then Some(maxConcurrency) else None;
    }

    method Register(scheme: Str, fn: ProbeFunc)
      modifies this`probers
      ensures probers == old(probers)[scheme := fn]
    {
      probers := probers[scheme := fn];
    }

    /** One call, undisturbed by others.  `expired` is the case taken by the select on the semaphore: the deadline
        rather than a free slot.  Every return gives back the token it took. */
    method Execute(target: Target, parsed: Option<Str>, expired: bool) returns (cat: Category)
      requires Valid()
      requires sem.Some? && tokens == sem.value ==> expired
      modifies this`tokens
      ensures Valid() && tokens == old(tokens)
      ensures cat ==
        if sem.Some? && expired then Timeout()
        else match Resolve(probers, target, parsed)
          case Some(fn) => fn(target)
          case None => Unknown()
      ensures sem.Some? && expired ==> cat == Ascii("timeout")
      ensures !(sem.Some? && expired) && target.scheme in probers ==> cat == probers[target.scheme](target)
      ensures !(sem.Some? && expired) && target.scheme !in probers ==>
        if parsed.Some? && parsed.value != [] && parsed.value in probers then cat == probers[parsed.value](target)
        else cat == Ascii("unknown_error")
    {
      if sem.Some? {
        if expired {
          return Timeout();
        }
        tokens := tokens + 1;
      }
      var found := target.scheme in probers;
      var scheme := target.scheme;
      if !found {
        if parsed.Some? && parsed.value != [] {
          scheme := parsed.value;
          found := scheme in probers;
        }
      }
      if !found {
        cat := Unknown();
      } else {
        var fn := probers[scheme];
        cat := fn(target);
      }
      if sem.Some? {
        tokens := tokens - 1;
      }
    }
  }
}
