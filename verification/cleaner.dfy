/** The two file cleaners: `CleanOnce` of pkg/tool/file_cleaner.go, which
    also deletes each removed file's database record, and `CleanOnce` of
    the api's cleaner package, which does not. Both walk a directory once,
    judge every file against one reading of the clock, and remove the
    files that are too old or too large. The walk is the sequence of
    entries it visits; removals and record deletions that fail are part
    of each entry. */
module FileCleaner {
  import opened Text
  import opened FilePath

  /** One visit of the walk: an error (logged and skipped), a directory
      (skipped), or a regular file with its modification time and size,
      whether `os.Remove` succeeds on it and whether deleting its record
      by stored name succeeds. */
  datatype Entry =
    | WalkError
    | Directory
    | File(path: string, modTime: int, size: int, removeOk: bool, recordDeleteOk: bool)

  /** `Retention` is a duration in the clock's unit; a `maxSize` of zero
      or less sets no size limit. */
  datatype Config = Config(retention: int, maxSize: int)

  /** What a run has done: files scanned, files removed (by their position
      in the walk, in order), bytes freed, and the stored names whose
      record was deleted. */
  datatype Report = Report(scanned: nat, removed: seq<nat>, freed: int, recordsDeleted: seq<string>)

  function Deleted(r: Report): nat {
    |r.removed|
  }

  /** A file is due for removal when it is older than the retention or
      larger than a positive size limit. */
  predicate Due(cfg: Config, now: int, modTime: int, size: int) {
    now - modTime > cfg.retention || (cfg.maxSize > 0 && size > cfg.maxSize)
  }

  /** The entry is a file that is due and that `os.Remove` deletes. */
  predicate Removes(e: Entry, cfg: Config, now: int) {
    e.File? && Due(cfg, now, e.modTime, e.size) && e.removeOk
  }

  /** The positions among the first `n` entries of files the run removes. */
  function RemovedSet(entries: seq<Entry>, cfg: Config, now: int, n: nat): set<nat>
    requires n <= |entries|
  {
    set i: nat | i < n && Removes(entries[i], cfg, now)
  }

  function FileSet(entries: seq<Entry>, n: nat): set<nat>
    requires n <= |entries|
  {
    set i: nat | i < n && entries[i].File?
  }

  /** The positions a sequence lists. */
  function Elems(xs: seq<nat>): set<nat> {
    set x | x in xs
  }

  lemma ElemsAppend(xs: seq<nat>, y: nat)
    ensures Elems(xs + [y]) == Elems(xs) + {y}
  {
    assert forall x :: x in xs + [y] <==> x in xs || x == y;
  }

  predicate Increasing(xs: seq<nat>) {
    forall i, j | 0 <= i < j < |xs| :: xs[i] < xs[j]
  }

  /** The total size of the entries at the given positions. */
  function SizeAt(entries: seq<Entry>, idx: seq<nat>): int
    requires forall k | 0 <= k < |idx| :: idx[k] < |entries| && entries[idx[k]].File?
  {
    if |idx| == 0 then 0
    else SizeAt(entries, idx[..|idx| - 1]) + entries[idx[|idx| - 1]].size
  }

  /** The stored names of the removed files whose record deletion succeeds. */
  function RecordNames(entries: seq<Entry>, idx: seq<nat>): seq<string>
    requires forall k | 0 <= k < |idx| :: idx[k] < |entries| && entries[idx[k]].File?
  {
    if |idx| == 0 then []
    else
      var e := entries[idx[|idx| - 1]];
      RecordNames(entries, idx[..|idx| - 1]) + (if e.recordDeleteOk then [Base(e.path)] else [])
  }

  /** What a report of the first `n` visits must say: the removed files,
      in walk order, are exactly the due files `os.Remove` deletes; every
      file is scanned; the bytes freed are the removed files' sizes; and
      the records deleted are those of removed files. */
  predicate Sound(entries: seq<Entry>, cfg: Config, now: int, withRecords: bool, n: nat, r: Report)
    requires n <= |entries|
  {
    && Increasing(r.removed)
    && (forall k | 0 <= k < |r.removed| :: r.removed[k] < n && entries[r.removed[k]].File?)
    && Elems(r.removed) == RemovedSet(entries, cfg, now, n)
    && r.scanned == |FileSet(entries, n)|
    && Deleted(r) <= r.scanned
    && r.freed == SizeAt(entries, r.removed)
    && (withRecords ==> r.recordsDeleted == RecordNames(entries, r.removed))
    && (!withRecords ==> r.recordsDeleted == [])
  }

  /** One visit of the walk. With `withRecords` a removal is followed by
      the deletion of the file's record under its base name, whose failure
      is only logged. */
  function Visit(before: Report, i: nat, e: Entry, cfg: Config, now: int, withRecords: bool): Report {
    if !e.File? then before
    else if !(Due(cfg, now, e.modTime, e.size) && e.removeOk) then before.(scanned := before.scanned + 1)
    else
      Report(before.scanned + 1, before.removed + [i], before.freed + e.size,
        before.recordsDeleted + (if withRecords && e.recordDeleteOk then [Base(e.path)] else []))
  }

  /** The walk's first `n` visits. */
  function Walked(entries: seq<Entry>, cfg: Config, now: int, withRecords: bool, n: nat): (r: Report)
    requires n <= |entries|
    ensures Sound(entries, cfg, now, withRecords, n, r)
    decreases n
  {
    if n == 0 then Report(0, [], 0, [])
    else
      var before := Walked(entries, cfg, now, withRecords, n - 1);
      VisitSound(entries, cfg, now, withRecords, n, before);
      Visit(before, n - 1, entries[n - 1], cfg, now, withRecords)
  }

  lemma VisitSound(entries: seq<Entry>, cfg: Config, now: int, withRecords: bool, n: nat, before: Report)
    requires 0 < n <= |entries|
    requires Sound(entries, cfg, now, withRecords, n - 1, before)
    ensures Sound(entries, cfg, now, withRecords, n, Visit(before, n - 1, entries[n - 1], cfg, now, withRecords))
  {
    var e := entries[n - 1];
    var r := Visit(before, n - 1, e, cfg, now, withRecords);
    StepRemoved(entries, cfg, now, n, before.removed, r.removed);
    StepScanned(entries, n);
    if Removes(e, cfg, now) {
      assert r.removed[..|r.removed| - 1] == before.removed;
      assert RemovedSet(entries, cfg, now, n) <= FileSet(entries, n);
      SubsetSize(entries, cfg, now, n, r.removed);
    }
  }

  /** The removed positions after one more visit. */
  lemma StepRemoved(entries: seq<Entry>, cfg: Config, now: int, n: nat, before: seq<nat>, after: seq<nat>)
    requires 0 < n <= |entries|
    requires Increasing(before)
    requires forall k | 0 <= k < |before| :: before[k] < n - 1 && entries[before[k]].File?
    requires Elems(before) == RemovedSet(entries, cfg, now, n - 1)
    requires after == if Removes(entries[n - 1], cfg, now) then before + [n - 1] else before
    ensures Increasing(after)
    ensures forall k | 0 <= k < |after| :: after[k] < n && entries[after[k]].File?
    ensures Elems(after) == RemovedSet(entries, cfg, now, n)
  {
    assert RemovedSet(entries, cfg, now, n) ==
      RemovedSet(entries, cfg, now, n - 1) + (if Removes(entries[n - 1], cfg, now) then {n - 1} else {});
    if Removes(entries[n - 1], cfg, now) {
      ElemsAppend(before, n - 1);
    }
  }

  /** One more visit scans one more file if it visits a file. */
  lemma StepScanned(entries: seq<Entry>, n: nat)
    requires 0 < n <= |entries|
    ensures |FileSet(entries, n)| == |FileSet(entries, n - 1)| + (if entries[n - 1].File? then 1 else 0)
  {
    assert FileSet(entries, n) == FileSet(entries, n - 1) + (if entries[n - 1].File? then {n - 1} else {});
    assert n - 1 !in FileSet(entries, n - 1);
  }

  /** The removed positions, being distinct files, are no more than the
      files scanned. */
  lemma SubsetSize(entries: seq<Entry>, cfg: Config, now: int, n: nat, removed: seq<nat>)
    requires n <= |entries|
    requires Increasing(removed)
    requires Elems(removed) == RemovedSet(entries, cfg, now, n)
    requires RemovedSet(entries, cfg, now, n) <= FileSet(entries, n)
    ensures |removed| <= |FileSet(entries, n)|
  {
    DistinctCard(removed);
    SubsetCard(Elems(removed), FileSet(entries, n));
  }

  /** An increasing sequence lists as many positions as it is long. */
  lemma {:induction false} DistinctCard(xs: seq<nat>)
    requires Increasing(xs)
    ensures |Elems(xs)| == |xs|
  {
    if |xs| > 0 {
      var init := xs[..|xs| - 1];
      DistinctCard(init);
      assert xs == init + [xs[|xs| - 1]];
      ElemsAppend(init, xs[|xs| - 1]);
      assert xs[|xs| - 1] !in Elems(init);
    }
  }

  lemma EmptyElems(xs: seq<nat>)
    ensures Elems(xs) == {} <==> |xs| == 0
  {
    if |xs| > 0 {
      assert xs[0] in Elems(xs);
    }
  }

  /** An increasing sequence is determined by the positions it lists. */
  lemma {:induction false} IncreasingUnique(xs: seq<nat>, ys: seq<nat>)
    requires Increasing(xs) && Increasing(ys) && Elems(xs) == Elems(ys)
    ensures xs == ys
  {
    EmptyElems(xs);
    EmptyElems(ys);
    if |xs| > 0 && |ys| > 0 {
      assert xs[0] in Elems(ys);
      assert ys[0] in Elems(xs);
      assert xs[0] == ys[0];
      assert xs == [xs[0]] + xs[1..] && ys == [ys[0]] + ys[1..];
      assert Elems(xs[1..]) == Elems(xs) - {xs[0]};
      assert Elems(ys[1..]) == Elems(ys) - {ys[0]};
      IncreasingUnique(xs[1..], ys[1..]);
    }
  }

  lemma {:induction false} SubsetCard(a: set<nat>, b: set<nat>)
    requires a <= b
    ensures |a| <= |b|
  {
    if a != {} {
      var x :| x in a;
      SubsetCard(a - {x}, b - {x});
    }
  }

  /** `CleanOnce` of pkg/tool. The walk's callback never returns an error,
      so neither does the run. */
  function ToolCleanOnce(entries: seq<Entry>, cfg: Config, now: int): (r: Report)
    ensures Elems(r.removed) == RemovedSet(entries, cfg, now, |entries|)
    ensures Increasing(r.removed)
    ensures forall k | 0 <= k < |r.removed| :: r.removed[k] < |entries| && entries[r.removed[k]].File?
    ensures r.scanned == |FileSet(entries, |entries|)| && Deleted(r) <= r.scanned
    ensures r.freed == SizeAt(entries, r.removed)
    ensures r.recordsDeleted == RecordNames(entries, r.removed)
  {
    Walked(entries, cfg, now, true, |entries|)
  }

  /** `CleanOnce` of the api's cleaner package: the same run without the
      database. */
  function ApiCleanOnce(entries: seq<Entry>, cfg: Config, now: int): (r: Report)
    ensures Elems(r.removed) == RemovedSet(entries, cfg, now, |entries|)
    ensures Increasing(r.removed)
    ensures forall k | 0 <= k < |r.removed| :: r.removed[k] < |entries| && entries[r.removed[k]].File?
    ensures r.scanned == |FileSet(entries, |entries|)| && Deleted(r) <= r.scanned
    ensures r.freed == SizeAt(entries, r.removed)
    ensures r.recordsDeleted == []
  {
    Walked(entries, cfg, now, false, |entries|)
  }

  /** The two cleaners scan, remove and free alike; they differ only in the
      records deleted. */
  lemma CleanersAgree(entries: seq<Entry>, cfg: Config, now: int)
    ensures ToolCleanOnce(entries, cfg, now).(recordsDeleted := []) == ApiCleanOnce(entries, cfg, now)
  {
    var a := ToolCleanOnce(entries, cfg, now);
    var b := ApiCleanOnce(entries, cfg, now);
    IncreasingUnique(a.removed, b.removed);
  }

  /** A file that is neither old nor too large survives; so does one
      whose removal fails. */
  lemma Survivors(entries: seq<Entry>, cfg: Config, now: int, i: nat)
    requires i < |entries| && entries[i].File?
    requires !Due(cfg, now, entries[i].modTime, entries[i].size) || !entries[i].removeOk
    ensures i !in ToolCleanOnce(entries, cfg, now).removed
    ensures i !in ApiCleanOnce(entries, cfg, now).removed
  {
    var r := ToolCleanOnce(entries, cfg, now);
    var q := ApiCleanOnce(entries, cfg, now);
    assert i !in RemovedSet(entries, cfg, now, |entries|);
  }

  /* ---------------- byteCountIEC ---------------- */

  const Unit := 1024
  const UnitLetters := "KMGTPE"

  function Pow(b: nat, e: nat): nat {
    if e == 0 then 1 else b * Pow(b, e - 1)
  }

  /** How `byteCountIEC` prints a count: "<n> B" below one KiB, otherwise
      the count divided by `div` with one decimal and the unit letter. */
  datatype Scale = Bytes(text: string) | Scaled(exp: nat, div: nat, letter: char)

  /** `byteCountIEC` on an int64 count, up to the division in floating
      point: the divisor is the largest power of 1024 not above the
      count, and its letter names that power. */
  method ByteCountIEC(b: int) returns (r: Scale)
    requires b < 0x8000_0000_0000_0000
    ensures b < Unit ==> r == Bytes(Decimal(b) + " B")
    ensures b >= Unit ==>
      && r.Scaled?
      && r.exp < |UnitLetters|
      && r.div == Pow(Unit, r.exp + 1)
      && r.div <= b < r.div * Unit
      && r.letter == UnitLetters[r.exp]
  {
    if b < Unit {
      return Bytes(Decimal(b) + " B");
    }
    var div: nat := Unit;
    var exp: nat := 0;
    var n := b / Unit;
    while n >= Unit
      invariant exp <= 5
      invariant div == Pow(Unit, exp + 1)
      invariant div * n <= b < div * (n + 1)
      invariant n >= 1
      decreases n
    {
      ScaleStep(div, n, b, exp);
      div := div * Unit;
      exp := exp + 1;
      n := n / Unit;
    }
    Mul(div, n, 1, Unit, b);
    return Scaled(exp, div, UnitLetters[exp]);
  }

  /** One round of the loop: dividing the quotient by 1024 and multiplying
      the divisor by 1024 keeps the bounds; an int64 count leaves room for
      at most six units. */
  lemma ScaleStep(div: nat, n: int, b: int, exp: nat)
    requires b < 0x8000_0000_0000_0000
    requires exp <= 5 && div == Pow(Unit, exp + 1)
    requires div * n <= b < div * (n + 1)
    requires n >= Unit
    ensures exp < 5
    ensures div * Unit * (n / Unit) <= b < div * Unit * (n / Unit + 1)
  {
    var m := n / Unit;
    assert n == Unit * m + n % Unit;
    Mul(div, n, Unit * m, Unit * (m + 1), b);
    assert div * (Unit * m) == div * Unit * m;
    assert div * (Unit * (m + 1)) == div * Unit * (m + 1);
    PowSix();
    Mul(div, n, Unit, n + 1, b);
  }

  lemma PowSix()
    ensures Pow(Unit, 6) == 0x1000_0000_0000_0000
  {
    assert Pow(Unit, 2) == 0x10_0000;
    assert Pow(Unit, 4) == Pow(Unit, 2) * Pow(Unit, 2) by {
      assert Pow(Unit, 4) == Unit * (Unit * Pow(Unit, 2));
    }
    assert Pow(Unit, 6) == Unit * (Unit * Pow(Unit, 4));
  }

  /** Scaling by a positive divisor keeps the bounds of a quotient. */
  lemma Mul(div: nat, n: int, lo: int, hi: int, b: int)
    requires div > 0 && lo <= n && n + 1 <= hi
    requires div * n <= b < div * (n + 1)
    ensures div * lo <= b < div * hi
  {
    assert div * lo <= div * n;
    assert div * (n + 1) <= div * hi;
  }
}
