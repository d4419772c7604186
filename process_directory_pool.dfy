/**
 * The bounded pool of reusable working directories
 * (SS14.MapServer/Helpers/ProcessDirectoryPool.cs).
 *
 * The pool counts the directories that exist (`count`) and the idle ones
 * (`available`); an inner object pool retains the idle directories and asks a
 * policy to create a fresh subdirectory of the pool root when none is idle.
 * Whether a directory still exists on disk and the Guid a new directory is
 * named after come from outside and are parameters here.
 */
module DirectoryPool {
  import opened Wrappers

  /** A pooled working directory: the subdirectory `name` of the pool root `root`. */
  datatype ProcessDirectory = ProcessDirectory(root: string, name: string)

  datatype PoolError =
    | DirectoryNotFound(poolDirectory: string)  // the constructor's DirectoryNotFoundException
    | NoneAvailable                             // Get's "none are available" exception

  /** The pool's two counters together with its configured maximum. */
  datatype PoolCounters = PoolCounters(count: int, available: int, maxPoolSize: nat)

  /** The bookkeeping invariant: 0 <= Available <= Count <= MaxPoolSize. */
  predicate CountersValid(s: PoolCounters) {
    0 <= s.available <= s.count <= s.maxPoolSize
  }

  /** Directories that exist but are not idle, that is, handed out. */
  function HandedOut(s: PoolCounters): int {
    s.count - s.available
  }

  /** `HasAvailable`: an idle directory exists or another one may still be created. */
  predicate CanGet(s: PoolCounters) {
    s.available > 0 || s.count < s.maxPoolSize
  }

  /** The counter update `Get` makes, or the error it throws (then nothing changes). */
  function GetStep(s: PoolCounters): (r: Result<PoolCounters, PoolError>)
    ensures r.Err? <==> !CanGet(s)
    ensures r.Err? ==> r.error == NoneAvailable
    ensures r.Ok? ==> r.value.maxPoolSize == s.maxPoolSize
    ensures r.Ok? && CountersValid(s) ==> CountersValid(r.value) && HandedOut(r.value) == HandedOut(s) + 1
  {
    if !CanGet(s) then Err(NoneAvailable)
    else if s.available == 0 then Ok(s.(count := s.count + 1))
    else Ok(s.(available := s.available - 1))
  }

  /**
   * The counter update `Return` makes: a directory still on disk becomes idle,
   * one deleted from disk is forgotten.
   */
  function ReturnStep(s: PoolCounters, existsOnDisk: bool): (r: PoolCounters)
    ensures r.maxPoolSize == s.maxPoolSize
    ensures HandedOut(r) == HandedOut(s) - 1
    ensures existsOnDisk ==> r.count == s.count
    ensures !existsOnDisk ==> r.available == s.available
    ensures CountersValid(s) && HandedOut(s) > 0 ==> CountersValid(r)
  {
    if existsOnDisk then s.(available := s.available + 1) else s.(count := s.count - 1)
  }

  /** In a valid state at most `maxPoolSize` directories are handed out. */
  lemma HandedOutBounded(s: PoolCounters)
    requires CountersValid(s)
    ensures 0 <= HandedOut(s) <= s.maxPoolSize
    ensures HandedOut(s) < s.maxPoolSize ==> CanGet(s)
  {
  }

  /**
   * `Return` does not check that the directory was handed out: giving back a
   * directory while none is handed out pushes `Available` above `Count`
   * (or `Count` below `Available`), so the bound no longer holds.
   */
  lemma ReturnWithoutGetBreaksBound(s: PoolCounters, existsOnDisk: bool)
    requires CountersValid(s) && HandedOut(s) == 0
    ensures !CountersValid(ReturnStep(s, existsOnDisk))
  {
  }

  /** A `Get` served from an idle directory followed by returning it restores both counters. */
  lemma GetReturnRestores(s: PoolCounters)
    requires s.available > 0
    ensures GetStep(s).Ok? && ReturnStep(GetStep(s).value, true) == s
  {
  }

  /** One call on the pool: `Get`, or `Return` of a directory that does or does not exist on disk. */
  datatype PoolCall = GetCall | ReturnCall(existsOnDisk: bool)

  /** The counters after a sequence of calls; a `Get` that throws changes nothing. */
  function Run(s: PoolCounters, calls: seq<PoolCall>): PoolCounters
    decreases |calls|
  {
    if calls == [] then s
    else
      var next := match calls[0]
        case GetCall => (match GetStep(s) case Ok(t) => t case Err(_) => s)
        case ReturnCall(e) => ReturnStep(s, e);
      Run(next, calls[1..])
  }

  /** Every `Return` in the sequence gives back a directory that is handed out at that point. */
  predicate ReturnsHandedOut(s: PoolCounters, calls: seq<PoolCall>)
    decreases |calls|
  {
    calls == [] ||
    match calls[0]
    case GetCall =>
      ReturnsHandedOut(match GetStep(s) case Ok(t) => t case Err(_) => s, calls[1..])
    case ReturnCall(e) =>
      HandedOut(s) > 0 && ReturnsHandedOut(ReturnStep(s, e), calls[1..])
  }

  /**
   * Whatever sequence of `Get` and `Return` calls the pool serves, the counters
   * stay valid, so no more than `maxPoolSize` directories are ever handed out.
   */
  lemma {:induction false} RunKeepsCountersValid(s: PoolCounters, calls: seq<PoolCall>)
    requires CountersValid(s) && ReturnsHandedOut(s, calls)
    ensures CountersValid(Run(s, calls))
    ensures HandedOut(Run(s, calls)) <= s.maxPoolSize
    ensures Run(s, calls).maxPoolSize == s.maxPoolSize
    decreases |calls|
  {
    if calls != [] {
      match calls[0]
      case GetCall =>
        var next := match GetStep(s) case Ok(t) => t case Err(_) => s;
        RunKeepsCountersValid(next, calls[1..]);
      case ReturnCall(e) =>
        RunKeepsCountersValid(ReturnStep(s, e), calls[1..]);
    }
  }

  /** `ProcessDirectoryPoolPolicy.Create`: a new subdirectory of the root named after a Guid. */
  function PolicyCreate(poolDirectory: string, guid: string): ProcessDirectory {
    ProcessDirectory(poolDirectory, guid)
  }

  /** `ProcessDirectoryPoolPolicy.Return`: only a directory that still exists is kept. */
  predicate PolicyReturn(existsOnDisk: bool) {
    existsOnDisk
  }

  class ProcessDirectoryPool {
    const poolDirectory: string
    const maxPoolSize: nat
    var count: int
    var available: int
    /** The idle directories the inner object pool retains. */
    var idle: seq<ProcessDirectory>
    /** Directories handed out by `Get` and not yet returned. */
    ghost var lent: set<ProcessDirectory>
    /** Every directory the policy has created so far. */
    ghost var created: set<ProcessDirectory>

    function Counters(): PoolCounters
      reads this
    {
      PoolCounters(count, available, maxPoolSize)
    }

    ghost predicate Valid()
      reads this
    {
      && CountersValid(Counters())
      && available == |idle|
      && count == |idle| + |lent|
      && (forall i, j :: 0 <= i < j < |idle| ==> idle[i] != idle[j])
      && (forall i :: 0 <= i < |idle| ==> idle[i] !in lent && idle[i] in created)
      && lent <= created
      && (forall d :: d in created ==> d.root == poolDirectory)
    }

    /** The constructor once the pool root is known to exist. */
    constructor (poolDirectory: string, maxPoolSize: nat)
      ensures Valid()
      ensures this.poolDirectory == poolDirectory && this.maxPoolSize == maxPoolSize
      ensures count == 0 && available == 0 && idle == [] && lent == {} && created == {}
    {
      this.poolDirectory := poolDirectory;
      this.maxPoolSize := maxPoolSize;
      count, available, idle := 0, 0, [];
      lent, created := {}, {};
    }

    /** `HasAvailable`. */
    method HasAvailable() returns (b: bool)
      ensures b <==> CanGet(Counters())
    {
      b := available > 0 || count < maxPoolSize;
    }

    /**
     * `Get`: hands out an idle directory, or has the policy create a new one
     * named `guid` when none is idle; throws when nothing is available.
     */
    method Get(guid: string) returns (r: Result<ProcessDirectory, PoolError>)
      requires Valid()
      requires PolicyCreate(poolDirectory, guid) !in created  // Guid.NewGuid is fresh
      modifies this
      ensures Valid()
      ensures r.Err? <==> !CanGet(old(Counters()))
      ensures r.Err? ==> r.error == NoneAvailable && unchanged(this)
      ensures r.Ok? ==> GetStep(old(Counters())) == Ok(Counters())
      ensures r.Ok? ==> r.value.root == poolDirectory && r.value !in old(lent) && lent == old(lent) + {r.value}
      ensures r.Ok? && old(available) == 0 ==>
        r.value == ProcessDirectory(poolDirectory, guid) && r.value !in old(created)
        && created == old(created) + {r.value} && idle == old(idle)
      ensures r.Ok? && old(available) > 0 ==>
        r.value == old(idle)[|old(idle)| - 1] && idle == old(idle)[..|old(idle)| - 1]
        && count == old(count) && created == old(created)
    {
      if !(available > 0 || count < maxPoolSize) {
        return Err(NoneAvailable);
      }
      if available == 0 {
        count := count + 1;
      } else {
        available := available - 1;
      }
      // The inner object pool: a retained directory if there is one, else a new one.
      var d: ProcessDirectory;
      if |idle| > 0 {
        d := idle[|idle| - 1];
        idle := idle[..|idle| - 1];
      } else {
        d := PolicyCreate(poolDirectory, guid);
        created := created + {d};
      }
      lent := lent + {d};
      r := Ok(d);
    }

    /**
     * `Return`: a directory still on disk becomes idle again; one that was
     * deleted from disk is forgotten, so a later `Get` creates a new one.
     */
    method Return(d: ProcessDirectory, existsOnDisk: bool)
      requires Valid()
      modifies this
      ensures Counters() == ReturnStep(old(Counters()), existsOnDisk)
      ensures lent == old(lent) - {d} && created == old(created)
      ensures idle == if existsOnDisk && |old(idle)| < maxPoolSize then old(idle) + [d] else old(idle)
      ensures d in old(lent) ==> Valid() && idle == if existsOnDisk then old(idle) + [d] else old(idle)
    {
      if !existsOnDisk {
        count := count - 1;
      } else {
        available := available + 1;
      }
      // The inner object pool keeps what the policy accepts, up to maxPoolSize directories.
      if PolicyReturn(existsOnDisk) && |idle| < maxPoolSize {
        idle := idle + [d];
      }
      lent := lent - {d};
      if d in old(lent) {
        assert |old(lent) - {d}| == |old(lent)| - 1;
        assert old(|idle|) < maxPoolSize;
        assert forall i :: 0 <= i < |old(idle)| ==> old(idle)[i] != d;
      }
    }
  }

  /**
   * The public constructor: throws `DirectoryNotFoundException` when the pool
   * root does not exist, and otherwise starts with no directories at all.
   */
  method NewPool(poolDirectory: string, rootExists: bool, maxPoolSize: nat)
    returns (r: Result<ProcessDirectoryPool, PoolError>)
    ensures !rootExists <==> r.Err?
    ensures r.Err? ==> r.error == DirectoryNotFound(poolDirectory)
    ensures r.Ok? ==> fresh(r.value) && r.value.Valid()
    ensures r.Ok? ==> r.value.poolDirectory == poolDirectory && r.value.maxPoolSize == maxPoolSize
    ensures r.Ok? ==> r.value.Counters() == PoolCounters(0, 0, maxPoolSize) && r.value.idle == []
  {
    if !rootExists {
      return Err(DirectoryNotFound(poolDirectory));
    }
    var pool := new ProcessDirectoryPool(poolDirectory, maxPoolSize);
    r := Ok(pool);
  }

  /** A client: a directory taken from the idle set and given back leaves the pool as it was. */
  method GetThenReturn(pool: ProcessDirectoryPool, guid: string)
    requires pool.Valid() && pool.available > 0
    requires PolicyCreate(pool.poolDirectory, guid) !in pool.created
    modifies pool
    ensures pool.Valid()
    ensures pool.Counters() == old(pool.Counters())
    ensures pool.lent == old(pool.lent)
  {
    var r := pool.Get(guid);
    assert r.Ok?;
    pool.Return(r.value, true);
  }
}
