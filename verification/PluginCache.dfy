/** The cached list of installed plugins: refreshed by fingerprint, kept while the directory cannot be
    scanned, dropped when an install or a removal changes the directory. */
module PluginCache {
  import opened Wrappers
  import opened ControlPlane

  type Plugins = seq<Plugin>

  datatype Cache = Cache(fingerprint: string, plugins: Plugins, stale: bool)

  /** What one read would find: the directory's fingerprint if it is readable, and a scan's result. */
  datatype Look = Look(fingerprint: Option<string>, scan: Option<Plugins>)

  /** The cache after a read, what the read served, and whether it logged the failure event. */
  datatype Outcome = Outcome(cache: Option<Cache>, served: Option<Plugins>, logged: bool)

  predicate IsHit(cache: Option<Cache>, look: Look) {
    look.fingerprint.Some? && cache.Some? && cache.value.fingerprint == look.fingerprint.value && !cache.value.stale
  }

  function ReadOnce(cache: Option<Cache>, look: Look): Outcome {
    if IsHit(cache, look) then Outcome(cache, Some(cache.value.plugins), false)
    else if look.fingerprint.Some? && look.scan.Some? then
      Outcome(Some(Cache(look.fingerprint.value, look.scan.value, false)), look.scan, false)
    else if cache.None? then Outcome(None, None, false)
    else Outcome(Some(cache.value.(stale := true)), Some(cache.value.plugins), !cache.value.stale)
  }

  class PluginScanner {
    var cache: Option<Cache>
    var events: nat

    constructor ()
      ensures cache == None && events == 0
    {
      cache, events := None, 0;
    }

    method InstalledPlugins(look: Look) returns (plugins: Option<Plugins>)
      modifies this
      ensures var read := ReadOnce(old(cache), look);
              && cache == read.cache && plugins == read.served
              && events == old(events) + if read.logged then 1 else 0
    {
      if look.fingerprint.Some? && cache.Some? {
        if cache.value.fingerprint == look.fingerprint.value && !cache.value.stale {
          return Some(cache.value.plugins);
        }
      }
      if look.fingerprint.Some? && look.scan.Some? {
        cache := Some(Cache(look.fingerprint.value, look.scan.value, false));
        return look.scan;
      }
      if cache.None? {
        return None;
      }
      if !cache.value.stale {
        events := events + 1;
      }
      cache := Some(cache.value.(stale := true));
      return Some(cache.value.plugins);
    }

    /** An install published a copy, or a removal moved one aside. */
    method Invalidate()
      modifies this`cache
      ensures cache == None
    {
      cache := None;
    }
  }

  // ---- Runs ----

  datatype Step = Reading(look: Look) | Invalidation

  function After(steps: seq<Step>): Option<Cache> {
    if steps == [] then None
    else
      match steps[|steps| - 1]
      case Reading(look) => ReadOnce(After(steps[..|steps| - 1]), look).cache
      case Invalidation => None
  }

  predicate IsRead(steps: seq<Step>, k: nat) {
    k < |steps| && steps[k].Reading?
  }

  function ReadAt(steps: seq<Step>, k: nat): Outcome
    requires IsRead(steps, k)
  {
    ReadOnce(After(steps[..k]), steps[k].look)
  }

  lemma AfterNext(steps: seq<Step>, k: nat)
    requires k < |steps|
    ensures After(steps[..k + 1]) == if steps[k].Reading? then ReadAt(steps, k).cache else None
  {
    assert steps[..k + 1][..k] == steps[..k];
  }

  /** The fingerprint of a directory determines its plugins, and a scan that succeeds finds them. */
  predicate Truthful(steps: seq<Step>, contents: string -> Plugins) {
    forall i :: 0 <= i < |steps| ==> TruthfulAt(steps[i], contents)
  }

  predicate TruthfulAt(step: Step, contents: string -> Plugins) {
    step.Reading? && step.look.fingerprint.Some? && step.look.scan.Some? ==>
      step.look.scan.value == contents(step.look.fingerprint.value)
  }

  lemma {:induction false} CacheIsTruthful(steps: seq<Step>, contents: string -> Plugins)
    requires Truthful(steps, contents)
    ensures After(steps).Some? ==> After(steps).value.plugins == contents(After(steps).value.fingerprint)
  {
    if steps != [] {
      CacheIsTruthful(steps[..|steps| - 1], contents);
      assert TruthfulAt(steps[|steps| - 1], contents);
    }
  }

  /** Where a scan is possible the cache cannot be told from one: a read then serves exactly what the
      directory holds. */
  lemma ReadableDirectoryIsServed(steps: seq<Step>, contents: string -> Plugins, k: nat)
    requires Truthful(steps, contents) && IsRead(steps, k)
    requires steps[k].look.fingerprint.Some? && steps[k].look.scan.Some?
    ensures ReadAt(steps, k).served == Some(contents(steps[k].look.fingerprint.value)) && !ReadAt(steps, k).logged
  {
    forall i | 0 <= i < k
      ensures TruthfulAt(steps[..k][i], contents)
    {
      assert TruthfulAt(steps[i], contents);
    }
    CacheIsTruthful(steps[..k], contents);
    assert TruthfulAt(steps[k], contents);
  }

  /** The read at k found no usable cache, and its scan succeeded. */
  predicate Scanned(steps: seq<Step>, k: nat) {
    && IsRead(steps, k) && !IsHit(After(steps[..k]), steps[k].look)
    && steps[k].look.fingerprint.Some? && steps[k].look.scan.Some?
  }

  /** The latest successful scan among the first n steps, unless something was invalidated after it. */
  function LatestScan(steps: seq<Step>, n: nat): Option<nat>
    requires n <= |steps|
  {
    if n == 0 || steps[n - 1].Invalidation? then None
    else if Scanned(steps, n - 1) then Some(n - 1)
    else LatestScan(steps, n - 1)
  }

  lemma {:induction false} LatestScanIs(steps: seq<Step>, n: nat, i: nat)
    requires n <= |steps| && LatestScan(steps, n) == Some(i)
    ensures i < n && Scanned(steps, i)
    ensures forall m :: i < m < n ==> IsRead(steps, m) && !Scanned(steps, m)
  {
    if !Scanned(steps, n - 1) {
      LatestScanIs(steps, n - 1, i);
      assert IsRead(steps, n - 1) && !Scanned(steps, n - 1);
    }
  }

  lemma {:induction false} CacheIsLatestScan(steps: seq<Step>, n: nat)
    requires n <= |steps|
    ensures match LatestScan(steps, n)
            case None => After(steps[..n]) == None
            case Some(i) => IsRead(steps, i) && After(steps[..n]).Some? &&
                            Some(After(steps[..n]).value.plugins) == steps[i].look.scan
  {
    if n > 0 {
      CacheIsLatestScan(steps, n - 1);
      AfterNext(steps, n - 1);
    }
  }

  /** The scan at i succeeded, and nothing was invalidated from then to step k. */
  predicate ScanLasts(steps: seq<Step>, k: nat, i: nat) {
    i <= k && Scanned(steps, i) && forall m :: i < m <= k ==> IsRead(steps, m)
  }

  lemma {:induction false} LastingScanIsFound(steps: seq<Step>, k: nat, i: nat)
    requires k < |steps| && ScanLasts(steps, k, i)
    ensures LatestScan(steps, k + 1).Some?
  {
    if i < k {
      LastingScanIsFound(steps, k - 1, i);
      assert IsRead(steps, k);
    }
  }

  /** A read is refused exactly when no scan has succeeded since the last invalidation; otherwise it
      serves the list of the latest successful one. */
  lemma ServesLatestScan(steps: seq<Step>, k: nat)
    requires IsRead(steps, k)
    ensures match LatestScan(steps, k + 1)
            case None => ReadAt(steps, k).served == None
            case Some(i) => IsRead(steps, i) && ReadAt(steps, k).served == steps[i].look.scan
    ensures ReadAt(steps, k).served.None? <==> forall i: nat :: !ScanLasts(steps, k, i)
  {
    AfterNext(steps, k);
    CacheIsLatestScan(steps, k + 1);
    match LatestScan(steps, k + 1)
    case Some(i) =>
      LatestScanIs(steps, k + 1, i);
      assert ScanLasts(steps, k, i);
    case None =>
      forall i: nat
        ensures !ScanLasts(steps, k, i)
      {
        if ScanLasts(steps, k, i) {
          LastingScanIsFound(steps, k, i);
        }
      }
  }

  lemma {:induction false} StaleSinceLogged(steps: seq<Step>, i: nat, k: nat)
    requires i < k <= |steps| && IsRead(steps, i) && ReadAt(steps, i).logged
    requires forall m :: i < m < k ==> !Scanned(steps, m)
    ensures After(steps[..k]).Some? ==> After(steps[..k]).value.stale
  {
    AfterNext(steps, k - 1);
    if i + 1 < k {
      StaleSinceLogged(steps, i, k - 1);
      assert !Scanned(steps, k - 1);
    }
  }

  /** One outage is logged once: between two logged reads a scan succeeded. */
  lemma OutageIsLoggedOnce(steps: seq<Step>, i: nat, j: nat)
    requires i < j && IsRead(steps, i) && IsRead(steps, j) && ReadAt(steps, i).logged && ReadAt(steps, j).logged
    ensures exists m :: i < m < j && Scanned(steps, m)
  {
    if forall m :: i < m < j ==> !Scanned(steps, m) {
      StaleSinceLogged(steps, i, j);
    }
  }
}
