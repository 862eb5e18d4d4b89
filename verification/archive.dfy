/**
 Naming of the ZIP archive for one capture day (`get_zip_filename`): the
 first `downloads/<day>_<n>_GoPro.zip`, counting `n` from 1, that does not
 exist yet. The file system is the set of paths that exist.
 */
module Archive {
  import opened Text

  /** The directory every archive is written to. */
  const DownloadDir: string := "downloads"

  const ArchiveSuffix: string := "_GoPro.zip"

  /** `os.path.join(a, b)` on POSIX: an absolute `b` replaces `a`; otherwise one `/` separates them. */
  function PathJoin(a: string, b: string): (p: string)
    ensures |b| > 0 && b[0] == '/' ==> p == b
    ensures !(|b| > 0 && b[0] == '/') ==> |p| >= |a| + |b| && p[..|a|] == a && p[|p| - |b|..] == b
  {
    if |b| > 0 && b[0] == '/' then b
    else if |a| == 0 || a[|a| - 1] == '/' then a + b
    else a + "/" + b
  }

  /** `f"{captured_day}_{counter}_GoPro.zip"`. */
  function ArchiveName(day: string, n: nat): string {
    day + "_" + NatToString(n) + ArchiveSuffix
  }

  /** The candidate path for counter `n`. */
  function ZipPath(day: string, n: nat): string {
    PathJoin(DownloadDir, ArchiveName(day, n))
  }

  /** The counter can be read back from the archive name. */
  lemma ArchiveNameInjective(day: string, a: nat, b: nat)
    requires ArchiveName(day, a) == ArchiveName(day, b)
    ensures a == b
  {
    var x, y := ArchiveName(day, a), ArchiveName(day, b);
    var sa, sb := NatToString(a), NatToString(b);
    assert |sa| == |sb|;
    assert x[|day| + 1..|day| + 1 + |sa|] == sa;
    assert y[|day| + 1..|day| + 1 + |sb|] == sb;
    DecimalInjective(a, b);
  }

  /** Distinct counters give distinct paths for the same day. */
  lemma ZipPathInjective(day: string, a: nat, b: nat)
    requires ZipPath(day, a) == ZipPath(day, b)
    ensures a == b
  {
    var x, y := ArchiveName(day, a), ArchiveName(day, b);
    assert x[0] == y[0] by {
      if |day| > 0 {
        assert x[0] == day[0] && y[0] == day[0];
      } else {
        assert x[0] == '_' && y[0] == '_';
      }
    }
    if x[0] != '/' {
      var p := ZipPath(day, a);
      assert |x| == |y|;
      assert x == p[|p| - |x|..] && y == p[|p| - |y|..];
    }
    ArchiveNameInjective(day, a, b);
  }

  /** The paths of the counters tried and found taken before `counter`. */
  function Tried(day: string, counter: nat): set<string> {
    set k | 1 <= k < counter :: ZipPath(day, k)
  }

  lemma TriedSucc(day: string, counter: nat)
    requires counter >= 1
    ensures Tried(day, counter + 1) == Tried(day, counter) + {ZipPath(day, counter)}
    ensures ZipPath(day, counter) !in Tried(day, counter)
  {
    var p := ZipPath(day, counter);
    forall q | q in Tried(day, counter + 1) ensures q in Tried(day, counter) + {p} {
      var k :| 1 <= k < counter + 1 && ZipPath(day, k) == q;
      if k < counter {
        assert q in Tried(day, counter);
      }
    }
    forall q | q in Tried(day, counter) ensures q in Tried(day, counter + 1) {
      var k :| 1 <= k < counter && ZipPath(day, k) == q;
      assert 1 <= k < counter + 1;
    }
    assert p in Tried(day, counter + 1) by {
      assert 1 <= counter < counter + 1;
    }
    if p in Tried(day, counter) {
      var k :| 1 <= k < counter && ZipPath(day, k) == p;
      ZipPathInjective(day, k, counter);
    }
  }

  lemma RemoveOne(s: set<string>, t: set<string>, p: string)
    requires p in s && p !in t
    ensures |s - (t + {p})| < |s - t|
  {
    var d := s - t;
    assert s - (t + {p}) == d - {p};
    assert d == (d - {p}) + {p};
  }

  /** Trying one more taken path leaves one fewer existing path untried. */
  lemma TriedStep(day: string, existing: set<string>, counter: nat)
    requires counter >= 1 && ZipPath(day, counter) in existing
    ensures |existing - Tried(day, counter + 1)| < |existing - Tried(day, counter)|
  {
    TriedSucc(day, counter);
    RemoveOne(existing, Tried(day, counter), ZipPath(day, counter));
  }

  /** The `while os.path.exists(filename)` loop from `counter` on: the first free counter not below it. */
  function FreeFrom(day: string, existing: set<string>, counter: nat): (n: nat)
    requires counter >= 1
    ensures n >= counter
    ensures ZipPath(day, n) !in existing
    decreases |existing - Tried(day, counter)|
  {
    if ZipPath(day, counter) !in existing then counter
    else
      TriedStep(day, existing, counter);
      FreeFrom(day, existing, counter + 1)
  }

  /** A counter the loop skips is taken. */
  lemma {:induction false} FreeFromSkips(day: string, existing: set<string>, counter: nat, k: nat)
    requires counter >= 1 && counter <= k < FreeFrom(day, existing, counter)
    ensures ZipPath(day, k) in existing
    decreases |existing - Tried(day, counter)|
  {
    if k > counter {
      TriedStep(day, existing, counter);
      FreeFromSkips(day, existing, counter + 1, k);
    }
  }

  /** Every counter the loop skips is taken, so the result is the least free counter not below the start. */
  lemma FreeFromLeast(day: string, existing: set<string>, counter: nat)
    requires counter >= 1
    ensures forall k :: counter <= k < FreeFrom(day, existing, counter) ==> ZipPath(day, k) in existing
  {
    forall k | counter <= k < FreeFrom(day, existing, counter) ensures ZipPath(day, k) in existing {
      FreeFromSkips(day, existing, counter, k);
    }
  }

  /** The counter `get_zip_filename` settles on. */
  function ZipCounter(day: string, existing: set<string>): (n: nat)
    ensures n >= 1
    ensures ZipPath(day, n) !in existing
  {
    FreeFrom(day, existing, 1)
  }

  /** The counter is the least `n >= 1` whose path is free. */
  lemma ZipCounterLeast(day: string, existing: set<string>)
    ensures forall k :: 1 <= k < ZipCounter(day, existing) ==> ZipPath(day, k) in existing
  {
    FreeFromLeast(day, existing, 1);
  }

  /** `get_zip_filename`: a path under the download directory that does not exist yet. */
  function ZipFilename(day: string, existing: set<string>): (path: string)
    ensures path !in existing
  {
    ZipPath(day, ZipCounter(day, existing))
  }

  /** Once the chosen archive exists, the next archive of the same day takes a higher counter. */
  lemma {:induction false} NextArchiveCounts(day: string, existing: set<string>)
    ensures ZipCounter(day, existing + {ZipFilename(day, existing)}) > ZipCounter(day, existing)
  {
    var e' := existing + {ZipFilename(day, existing)};
    ZipCounterLeast(day, existing);
    var n, n' := ZipCounter(day, existing), ZipCounter(day, e');
    assert forall k :: 1 <= k < n ==> ZipPath(day, k) in e';
  }
}
