/**
  The rotating node log: a live file (generation 0) and three older generations, shifted by renames
  that are allowed to fail unnoticed. A file is the list of records appended to it.
 */
module NodeLog {
  import opened Prelude

  const MAX_LOG_BYTES: int := 10 * 1024 * 1024
  const MAX_ROTATIONS: int := 3

  type Record = seq<byte>

  type Files = map<nat, seq<Record>>

  function Size(file: seq<Record>): nat {
    if file == [] then 0 else Size(file[..|file| - 1]) + |file[|file| - 1]|
  }

  function FileAt(files: Files, i: nat): seq<Record> {
    if i in files then files[i] else []
  }

  /** Renaming a file that is missing fails, like any rename the system refuses. */
  function Rename(files: Files, from: nat, to: nat, ok: bool): Files {
    if ok && from in files then (files - {from})[to := files[from]] else files
  }

  /** The renames of generations top, top - 1, ..., 0 to the next; `ok(i)` says whether that of i works. */
  function Rotated(files: Files, top: nat, ok: nat -> bool): Files
    decreases top
  {
    var shifted := Rename(files, top, top + 1, ok(top));
    if top == 0 then shifted else Rotated(shifted, top - 1, ok)
  }

  /** The files when a write may append: rotated if the live file has reached the limit. */
  function Ready(files: Files, ok: nat -> bool): Files {
    if 0 in files && Size(files[0]) >= MAX_LOG_BYTES then Rotated(files, MAX_ROTATIONS - 1, ok) else files
  }

  function Append(files: Files, data: Record): Files {
    files[0 := FileAt(files, 0) + [data]]
  }

  function Written(files: Files, data: Record, ok: nat -> bool): Files {
    Append(Ready(files, ok), data)
  }

  class Log {
    var files: Files

    constructor ()
      ensures files == map[]
    {
      files := map[];
    }

    method Rotate(ok: nat -> bool)
      modifies this
      ensures files == Rotated(old(files), MAX_ROTATIONS - 1, ok)
    {
      var i := MAX_ROTATIONS - 1;
      while i >= 1
        invariant 0 <= i
        invariant Rotated(files, i, ok) == Rotated(old(files), MAX_ROTATIONS - 1, ok)
      {
        files := Rename(files, i, i + 1, ok(i));
        i := i - 1;
      }
      files := Rename(files, 0, 1, ok(0));
    }

    method AppendRotating(data: Record, ok: nat -> bool)
      modifies this
      ensures files == Written(old(files), data, ok)
    {
      if 0 in files && Size(files[0]) >= MAX_LOG_BYTES {
        Rotate(ok);
      }
      files := files[0 := FileAt(files, 0) + [data]];
    }
  }

  // ---- Reading back ----

  /** Generations 3, 2, 1 and the live file, one after the other. */
  function Contents(files: Files): seq<Record> {
    FileAt(files, 3) + FileAt(files, 2) + FileAt(files, 1) + FileAt(files, 0)
  }

  /** The rename of a generation happens: it is there and the system does not refuse. */
  predicate Moves(files: Files, i: nat, ok: nat -> bool) {
    i in files && ok(i)
  }

  lemma RotatedThrice(files: Files, ok: nat -> bool)
    ensures Rotated(files, 2, ok) == Rename(Rename(Rename(files, 2, 3, ok(2)), 1, 2, ok(1)), 0, 1, ok(0))
  {
    var two := Rename(files, 2, 3, ok(2));
    assert Rotated(two, 1, ok) == Rotated(Rename(two, 1, 2, ok(1)), 0, ok);
  }

  /** Where everything is after a rotation. */
  lemma RotatedFiles(files: Files, ok: nat -> bool)
    ensures var r := Rotated(files, 2, ok);
            && FileAt(r, 3) == (if Moves(files, 2, ok) then files[2] else FileAt(files, 3))
            && FileAt(r, 2) == (if Moves(files, 1, ok) then files[1]
                                else if Moves(files, 2, ok) then [] else FileAt(files, 2))
            && FileAt(r, 1) == (if Moves(files, 0, ok) then files[0]
                                else if Moves(files, 1, ok) then [] else FileAt(files, 1))
            && FileAt(r, 0) == (if Moves(files, 0, ok) then [] else FileAt(files, 0))
  {
    RotatedThrice(files, ok);
  }

  /** A generation that stays where it is while the next newer one is renamed onto it. */
  predicate Overwritten(files: Files, g: nat, ok: nat -> bool)
    requires g >= 1
  {
    g in files && !ok(g) && Moves(files, g - 1, ok)
  }

  /** A rotation overwrites a generation while an older one survives. */
  predicate LosesMiddle(files: Files, ok: nat -> bool) {
    || (Overwritten(files, 2, ok) && 3 in files)
    || (Overwritten(files, 1, ok) && (2 in files || 3 in files))
  }

  /** What a rotation does to the records, oldest first: the first part goes, and so does the third. */
  datatype Parts = Parts(dropped: seq<Record>, older: seq<Record>, lost: seq<Record>, newer: seq<Record>)

  ghost function Cut(files: Files, ok: nat -> bool): Parts {
    var f3, f2, f1, f0 := FileAt(files, 3), FileAt(files, 2), FileAt(files, 1), FileAt(files, 0);
    var dropped := if Moves(files, 2, ok) then f3 else [];
    var kept3 := if Moves(files, 2, ok) then [] else f3;
    if Overwritten(files, 2, ok) then Parts(dropped, kept3, f2, f1 + f0)
    else if Overwritten(files, 1, ok) then Parts(dropped, kept3 + f2, f1, f0)
    else Parts(dropped, [], [], kept3 + f2 + f1 + f0)
  }

  lemma CutBefore(files: Files, ok: nat -> bool)
    ensures var p := Cut(files, ok); Contents(files) == p.dropped + p.older + p.lost + p.newer
  {
    var f3, f2, f1, f0 := FileAt(files, 3), FileAt(files, 2), FileAt(files, 1), FileAt(files, 0);
    if Overwritten(files, 2, ok) {
      assert f3 + f2 + f1 + f0 == [] + f3 + f2 + (f1 + f0);
    } else if Overwritten(files, 1, ok) {
      assert f3 + f2 + f1 + f0 == f3 + ([] + f2) + f1 + f0 == [] + (f3 + f2) + f1 + f0;
    } else {
      assert f3 + f2 + f1 + f0 == f3 + [] + [] + ([] + f2 + f1 + f0) == [] + [] + [] + (f3 + f2 + f1 + f0);
    }
  }

  lemma CutAfter(files: Files, ok: nat -> bool)
    ensures var p := Cut(files, ok); Contents(Rotated(files, 2, ok)) == p.older + p.newer
  {
    RotatedFiles(files, ok);
    var f3, f2, f1, f0 := FileAt(files, 3), FileAt(files, 2), FileAt(files, 1), FileAt(files, 0);
    var kept3 := if Moves(files, 2, ok) then [] else f3;
    if Overwritten(files, 2, ok) {
      assert f3 + f1 + f0 + [] == f3 + f1 + [] + f0 == f3 + (f1 + f0);
    } else if Overwritten(files, 1, ok) {
      assert f2 + [] + f0 + [] == [] + f2 + f0;
      assert f3 + f2 + f0 + [] == (f3 + f2) + f0;
    } else {
      CutNothing(kept3, f2, f1, f0, files, ok);
    }
  }

  lemma CutNothing(kept3: seq<Record>, f2: seq<Record>, f1: seq<Record>, f0: seq<Record>, files: Files, ok: nat -> bool)
    requires !Overwritten(files, 2, ok) && !Overwritten(files, 1, ok)
    requires f2 == FileAt(files, 2) && f1 == FileAt(files, 1) && f0 == FileAt(files, 0)
    requires kept3 == if Moves(files, 2, ok) then [] else FileAt(files, 3)
    ensures Contents(Rotated(files, 2, ok)) == [] + (kept3 + f2 + f1 + f0)
  {
    RotatedFiles(files, ok);
    var r := Rotated(files, 2, ok);
    var r1, r0 := FileAt(r, 1), FileAt(r, 0);
    assert FileAt(r, 3) + FileAt(r, 2) + (if Moves(files, 1, ok) then [] else f1)
        == kept3 + f2 + f1;
    assert (if Moves(files, 1, ok) then [] else f1) + f0 == r1 + r0;
  }

  ghost predicate NoEmptyFile(files: Files) {
    forall i :: i in files ==> files[i] != []
  }

  lemma CutLoses(files: Files, ok: nat -> bool)
    requires NoEmptyFile(files)
    ensures LosesMiddle(files, ok) <==> Cut(files, ok).older != [] && Cut(files, ok).lost != []
  {
  }

  // ---- Runs ----

  datatype Write = Write(data: Record, ok: nat -> bool)

  function After(run: seq<Write>): Files {
    if run == [] then map[]
    else Written(After(run[..|run| - 1]), run[|run| - 1].data, run[|run| - 1].ok)
  }

  function Everything(run: seq<Write>): (all: seq<Record>)
    ensures |all| == |run|
  {
    if run == [] then [] else Everything(run[..|run| - 1]) + [run[|run| - 1].data]
  }

  ghost predicate Suffix(s: seq<Record>, all: seq<Record>) {
    exists k: nat :: k <= |all| && s == all[k..]
  }

  ghost predicate Distinct(all: seq<Record>) {
    forall i, j :: 0 <= i < j < |all| ==> all[i] != all[j]
  }

  lemma {:induction false} RotatedNotEmpty(files: Files, top: nat, ok: nat -> bool)
    requires NoEmptyFile(files)
    ensures NoEmptyFile(Rotated(files, top, ok))
    decreases top
  {
    if top > 0 {
      RotatedNotEmpty(Rename(files, top, top + 1, ok(top)), top - 1, ok);
    }
  }

  lemma {:induction false} FilesNotEmpty(run: seq<Write>)
    ensures NoEmptyFile(After(run))
  {
    if run != [] {
      var n := |run| - 1;
      FilesNotEmpty(run[..n]);
      RotatedNotEmpty(After(run[..n]), 2, run[n].ok);
    }
  }

  lemma SuffixTail(front: seq<Record>, rest: seq<Record>, all: seq<Record>, data: Record)
    requires Suffix(front + rest, all)
    ensures Suffix(rest + [data], all + [data])
  {
    var k: nat :| k <= |all| && front + rest == all[k..];
    assert rest == (front + rest)[|front|..] == all[k + |front|..];
    assert rest + [data] == (all + [data])[k + |front|..];
  }

  /** Without its dropped and lost parts, a suffix goes on being one unless the lost part was in the middle. */
  lemma SuffixKept(p: Parts, all: seq<Record>, data: Record)
    requires Suffix(p.dropped + p.older + p.lost + p.newer, all)
    requires p.older == [] || p.lost == []
    ensures Suffix(p.older + p.newer + [data], all + [data])
  {
    if p.older == [] {
      assert p.older + p.newer == p.newer;
      SuffixTail(p.dropped + p.older + p.lost, p.newer, all, data);
    } else {
      assert p.dropped + p.older + p.lost + p.newer == p.dropped + (p.older + p.newer);
      SuffixTail(p.dropped, p.older + p.newer, all, data);
    }
  }

  lemma SuffixBroken(p: Parts, all: seq<Record>, data: Record)
    requires Suffix(p.dropped + p.older + p.lost + p.newer, all) && Distinct(all + [data])
    requires p.older != [] && p.lost != []
    ensures !Suffix(p.older + p.newer + [data], all + [data])
  {
    var whole := p.dropped + p.older + p.lost + p.newer;
    var k: nat :| k <= |all| && whole == all[k..];
    var more, rest := all + [data], p.older + p.newer + [data];
    var at := k + |p.dropped|;
    assert more[at] == all[k..][|p.dropped|] == whole[|p.dropped|] == rest[0];
    forall j: nat | j <= |more| ensures rest != more[j..] {
      StartsOnce(more, at, j, rest);
    }
  }

  /** In a list without repeats only one suffix starts with a given record. */
  lemma StartsOnce(all: seq<Record>, at: nat, j: nat, s: seq<Record>)
    requires Distinct(all) && at < |all| && j <= |all| && s != [] && all[at] == s[0] && |s| != |all| - at
    ensures s != all[j..]
  {
    if j < |all| && j != at {
      assert all[j..][0] == all[j];
    }
  }

  predicate AtLimit(files: Files) {
    0 in files && Size(files[0]) >= MAX_LOG_BYTES
  }

  lemma AppendContents(files: Files, data: Record)
    ensures Contents(Append(files, data)) == Contents(files) + [data]
  {
    var older, f0 := FileAt(files, 3) + FileAt(files, 2) + FileAt(files, 1), FileAt(files, 0);
    assert older + (f0 + [data]) == older + f0 + [data];
  }

  lemma RotatedKept(files: Files, all: seq<Record>, ok: nat -> bool, data: Record)
    requires NoEmptyFile(files) && Suffix(Contents(files), all) && !LosesMiddle(files, ok)
    ensures Suffix(Contents(Rotated(files, 2, ok)) + [data], all + [data])
  {
    CutBefore(files, ok);
    CutAfter(files, ok);
    CutLoses(files, ok);
    SuffixKept(Cut(files, ok), all, data);
  }

  lemma RotatedBroken(files: Files, all: seq<Record>, ok: nat -> bool, data: Record)
    requires NoEmptyFile(files) && Suffix(Contents(files), all) && LosesMiddle(files, ok) && Distinct(all + [data])
    ensures !Suffix(Contents(Rotated(files, 2, ok)) + [data], all + [data])
  {
    CutBefore(files, ok);
    CutAfter(files, ok);
    CutLoses(files, ok);
    SuffixBroken(Cut(files, ok), all, data);
  }

  /** One write keeps the suffix if it loses nothing from the middle. */
  lemma WrittenKept(files: Files, all: seq<Record>, w: Write)
    requires NoEmptyFile(files) && Suffix(Contents(files), all)
    requires AtLimit(files) ==> !LosesMiddle(files, w.ok)
    ensures Suffix(Contents(Written(files, w.data, w.ok)), all + [w.data])
  {
    AppendContents(Ready(files, w.ok), w.data);
    if AtLimit(files) {
      RotatedKept(files, all, w.ok, w.data);
    } else {
      assert [] + Contents(files) == Contents(files);
      SuffixTail([], Contents(files), all, w.data);
    }
  }

  /** And breaks it, where records are distinct, if it does. */
  lemma WrittenBroken(files: Files, all: seq<Record>, w: Write)
    requires NoEmptyFile(files) && Suffix(Contents(files), all) && Distinct(all + [w.data])
    requires AtLimit(files) && LosesMiddle(files, w.ok)
    ensures !Suffix(Contents(Written(files, w.data, w.ok)), all + [w.data])
  {
    AppendContents(Ready(files, w.ok), w.data);
    RotatedBroken(files, all, w.ok, w.data);
  }

  /** The k-th write rotates and, some rename failing, loses a generation from the middle. */
  predicate LosesAt(run: seq<Write>, k: nat)
    requires k < |run|
  {
    AtLimit(After(run[..k])) && LosesMiddle(After(run[..k]), run[k].ok)
  }

  ghost predicate NeverLoses(run: seq<Write>) {
    forall k :: 0 <= k < |run| ==> !LosesAt(run, k)
  }

  lemma Prefixes(run: seq<Write>, k: nat)
    requires k < |run|
    ensures run[..k + 1][..k] == run[..k] && run[..k + 1][k] == run[k]
    ensures After(run[..k + 1]) == Written(After(run[..k]), run[k].data, run[k].ok)
    ensures Everything(run[..k + 1]) == Everything(run[..k]) + [run[k].data]
  {
    assert run[..k + 1][..k] == run[..k];
  }

  lemma NothingRead()
    ensures Suffix(Contents(map[]), [])
  {
    var none: seq<Record> := [];
    assert Contents(map[]) == none[0..];
  }

  /**
    After any writes that lose nothing from the middle, generations 3, 2, 1 and the live file read one
    after the other are a suffix of everything written, cut between records.
   */
  lemma {:induction false} ReadsASuffix(run: seq<Write>, k: nat)
    requires k <= |run| && NeverLoses(run)
    ensures SuffixAt(run, k)
    decreases k
  {
    if k == 0 {
      NothingRead();
      assert run[..0] == [];
    } else {
      ReadsASuffix(run, k - 1);
      assert !LosesAt(run, k - 1);
      SuffixStep(run, k - 1);
    }
  }

  ghost predicate SuffixAt(run: seq<Write>, k: nat)
    requires k <= |run|
  {
    Suffix(Contents(After(run[..k])), Everything(run[..k]))
  }

  lemma SuffixStep(run: seq<Write>, k: nat)
    requires k < |run| && SuffixAt(run, k)
    ensures !LosesAt(run, k) ==> SuffixAt(run, k + 1)
    ensures LosesAt(run, k) && Distinct(Everything(run)) ==> !SuffixAt(run, k + 1)
  {
    FilesNotEmpty(run[..k]);
    Prefixes(run, k);
    if !LosesAt(run, k) {
      WrittenKept(After(run[..k]), Everything(run[..k]), run[k]);
    } else if Distinct(Everything(run)) {
      EverythingPrefix(run, k + 1);
      WrittenBroken(After(run[..k]), Everything(run[..k]), run[k]);
    }
  }

  ghost predicate AlwaysSuffix(run: seq<Write>) {
    forall k :: 0 <= k <= |run| ==> SuffixAt(run, k)
  }

  lemma {:induction false} EverythingPrefix(run: seq<Write>, k: nat)
    requires k <= |run|
    ensures Everything(run[..k]) == Everything(run)[..k]
    decreases |run|
  {
    if k < |run| {
      EverythingPrefix(run[..|run| - 1], k);
      assert run[..|run| - 1][..k] == run[..k];
    } else {
      assert run[..k] == run;
    }
  }

  /**
    For distinct records: what is read back is a suffix of everything written, at every time, if and only
    if no rotation overwrites a generation while an older one survives.
   */
  lemma SuffixExactly(run: seq<Write>)
    requires Distinct(Everything(run))
    ensures AlwaysSuffix(run) <==> NeverLoses(run)
  {
    if NeverLoses(run) {
      forall k | 0 <= k <= |run| ensures SuffixAt(run, k) {
        ReadsASuffix(run, k);
      }
    } else {
      var k :| 0 <= k < |run| && LosesAt(run, k);
      var later := k + 1;
      if SuffixAt(run, k) {
        SuffixStep(run, k);
        assert !SuffixAt(run, later);
      }
    }
  }

  // ---- Sizes ----

  /** A file without its last record is below the limit. */
  ghost predicate Bounded(file: seq<Record>) {
    file == [] || Size(file[..|file| - 1]) < MAX_LOG_BYTES
  }

  ghost predicate AllBounded(files: Files) {
    forall i :: i in files ==> Bounded(files[i])
  }

  lemma {:induction false} RotatedBounded(files: Files, top: nat, ok: nat -> bool)
    requires AllBounded(files)
    ensures AllBounded(Rotated(files, top, ok))
    decreases top
  {
    if top > 0 {
      RotatedBounded(Rename(files, top, top + 1, ok(top)), top - 1, ok);
    }
  }

  lemma SnocBounded(file: seq<Record>, data: Record)
    ensures Bounded(file + [data]) <==> Size(file) < MAX_LOG_BYTES
  {
    assert (file + [data])[..|file|] == file;
  }

  /** A write keeps every file in bounds exactly when it can rename a live file at the limit. */
  lemma WrittenBounded(files: Files, w: Write)
    requires AllBounded(files)
    ensures AllBounded(Written(files, w.data, w.ok)) <==> (AtLimit(files) ==> w.ok(0))
  {
    var ready := Ready(files, w.ok);
    var live := FileAt(ready, 0);
    if AtLimit(files) {
      RotatedFiles(files, w.ok);
      RotatedBounded(files, 2, w.ok);
    }
    SnocBounded(live, w.data);
    var done := Written(files, w.data, w.ok);
    assert done[0] == live + [w.data];
    assert forall i :: i in done && i != 0 ==> i in ready && done[i] == ready[i];
  }

  ghost predicate AlwaysBounded(run: seq<Write>) {
    forall k :: 0 <= k <= |run| ==> AllBounded(After(run[..k]))
  }

  /** The k-th write finds the live file at the limit and cannot rename it. */
  predicate StuckAt(run: seq<Write>, k: nat)
    requires k < |run|
  {
    AtLimit(After(run[..k])) && !run[k].ok(0)
  }

  lemma {:induction false} BoundedUntil(run: seq<Write>, k: nat)
    requires k <= |run| && forall i :: 0 <= i < k ==> !StuckAt(run, i)
    ensures AllBounded(After(run[..k]))
    decreases k
  {
    if k > 0 {
      BoundedUntil(run, k - 1);
      Prefixes(run, k - 1);
      assert !StuckAt(run, k - 1);
      WrittenBounded(After(run[..k - 1]), run[k - 1]);
    }
  }

  /**
    Every file is shorter than the limit plus its own last record, at every time, if and only if every
    write that found the live file at the limit could rename it.
   */
  lemma FilesBoundedExactly(run: seq<Write>)
    ensures AlwaysBounded(run) <==> forall k :: 0 <= k < |run| ==> !StuckAt(run, k)
  {
    if k :| 0 <= k < |run| && StuckAt(run, k) {
      if AllBounded(After(run[..k])) {
        Prefixes(run, k);
        WrittenBounded(After(run[..k]), run[k]);
        var later := k + 1;
        assert !AllBounded(After(run[..later]));
      }
    } else {
      forall k | 0 <= k <= |run| ensures AllBounded(After(run[..k])) {
        BoundedUntil(run, k);
      }
    }
  }

  // ---- Where both fail ----

  /** A record as long as the limit. */
  function Long(b: byte): Record {
    seq(MAX_LOG_BYTES, i => b)
  }

  lemma SizeOfOne(r: Record)
    ensures Size([r]) == |r|
  {
    assert [r][..0] == [];
  }

  /** A write that rotates a live file of one long record. */
  lemma WrittenLong(files: Files, live: Record, data: Record, ok: nat -> bool)
    requires 0 in files && files[0] == [live] && |live| >= MAX_LOG_BYTES && ok(0)
    ensures Written(files, data, ok)
         == Rename(Rename(Rename(files, 2, 3, ok(2)), 1, 2, ok(1)), 0, 1, true)[0 := [data]]
  {
    SizeOfOne(live);
    RotatedThrice(files, ok);
    RotatedFiles(files, ok);
    assert [] + [data] == [data];
  }

  ghost function FourWrites(): seq<Write> {
    var every := (i: nat) => true;
    [Write(Long(1), every), Write(Long(2), every), Write(Long(3), every), Write(Long(4), i => i != 1)]
  }

  /** Four writes of which the first three are long; only the rename of generation 1 in the last is refused. */
  ghost predicate FourLong(run: seq<Write>) {
    && |run| == 4 && (forall i :: 0 <= i < 3 ==> |run[i].data| >= MAX_LOG_BYTES)
    && (forall i: nat :: run[1].ok(i) && run[2].ok(i)) && forall i: nat :: run[3].ok(i) <==> i != 1
  }

  lemma AfterOne(run: seq<Write>)
    requires run != []
    ensures After(run[..1]) == map[0 := [run[0].data]]
  {
    Prefixes(run, 0);
    assert run[..0] == [] && [] + [run[0].data] == [run[0].data];
  }

  lemma AfterTwo(run: seq<Write>)
    requires FourLong(run)
    ensures After(run[..2]) == map[0 := [run[1].data], 1 := [run[0].data]]
  {
    AfterOne(run);
    Prefixes(run, 1);
    WrittenLong(After(run[..1]), run[0].data, run[1].data, run[1].ok);
  }

  lemma RotatesTwo(live: Record, one: Record, data: Record, ok: nat -> bool)
    requires |live| >= MAX_LOG_BYTES && ok(0) && ok(1)
    ensures Written(map[0 := [live], 1 := [one]], data, ok) == map[0 := [data], 1 := [live], 2 := [one]]
  {
    var files: Files := map[0 := [live], 1 := [one]];
    WrittenLong(files, live, data, ok);
    assert Rename(files, 2, 3, ok(2)) == files;
    assert Rename(files, 1, 2, true) == map[0 := [live], 2 := [one]];
  }

  lemma RotatesThree(live: Record, one: Record, two: Record, data: Record, ok: nat -> bool)
    requires |live| >= MAX_LOG_BYTES && ok(0) && !ok(1) && ok(2)
    ensures Written(map[0 := [live], 1 := [one], 2 := [two]], data, ok) == map[0 := [data], 1 := [live], 3 := [two]]
  {
    var files: Files := map[0 := [live], 1 := [one], 2 := [two]];
    WrittenLong(files, live, data, ok);
    assert Rename(files, 2, 3, true) == map[0 := [live], 1 := [one], 3 := [two]];
  }

  lemma AfterThree(run: seq<Write>)
    requires FourLong(run)
    ensures After(run[..3]) == map[0 := [run[2].data], 1 := [run[1].data], 2 := [run[0].data]]
  {
    AfterTwo(run);
    Prefixes(run, 2);
    RotatesTwo(run[1].data, run[0].data, run[2].data, run[2].ok);
  }

  lemma AfterFour(run: seq<Write>)
    requires FourLong(run)
    ensures After(run) == map[0 := [run[3].data], 1 := [run[2].data], 3 := [run[0].data]]
  {
    AfterThree(run);
    Prefixes(run, 3);
    RotatesThree(run[2].data, run[1].data, run[0].data, run[3].data, run[3].ok);
    assert run[..4] == run;
  }

  lemma EverythingOfFour(run: seq<Write>)
    requires |run| == 4
    ensures Everything(run) == [run[0].data, run[1].data, run[2].data, run[3].data]
  {
    assert run[..3][..2] == run[..2] && run[..2][..1] == run[..1] && run[..1][..0] == [];
    assert Everything(run[..1]) == [run[0].data];
    assert Everything(run[..2]) == [run[0].data, run[1].data];
  }

  /** With only the rename of generation 1 refused, the second of four records goes missing. */
  lemma MiddleRenameFails()
    ensures Contents(After(FourWrites())) == [Long(1), Long(3), Long(4)]
    ensures !Suffix(Contents(After(FourWrites())), Everything(FourWrites()))
  {
    AfterFour(FourWrites());
    EverythingOfFour(FourWrites());
    var all, read := Everything(FourWrites()), Contents(After(FourWrites()));
    assert read == [Long(1), Long(3), Long(4)];
    assert Long(1)[0] != Long(2)[0];
    forall k: nat | k <= |all| ensures read != all[k..] {
      if |read| == |all| - k {
        assert all[k..][0] == Long(2);
      }
    }
  }

  /** With the rename of a live file at the limit refused, it grows on. */
  lemma LiveRenameFails()
    ensures var run := [Write(Long(1), i => true), Write(Long(2), i => false)];
            After(run) == map[0 := [Long(1), Long(2)]] && !Bounded(After(run)[0])
  {
    var run := [Write(Long(1), i => true), Write(Long(2), i => false)];
    assert run[..1][..0] == [];
    assert [] + [Long(1)] == [Long(1)];
    assert After(run[..1]) == map[0 := [Long(1)]];
    assert [Long(1)] + [Long(2)] == [Long(1), Long(2)];
    SizeOfOne(Long(1));
    RotatedThrice(After(run[..1]), run[1].ok);
    SnocBounded([Long(1)], Long(2));
  }

  // ---- Sizes are byte counts ----

  /** What is on disk: the records one after the other. */
  function Bytes(file: seq<Record>): seq<byte> {
    if file == [] then [] else file[0] + Bytes(file[1..])
  }

  lemma {:induction false} BytesConcat(a: seq<Record>, b: seq<Record>)
    ensures Bytes(a + b) == Bytes(a) + Bytes(b)
  {
    if a == [] {
      assert a + b == b;
    } else {
      assert (a + b)[1..] == a[1..] + b;
      BytesConcat(a[1..], b);
    }
  }

  /** The size that decides a rotation is the number of bytes in the file. */
  lemma {:induction false} SizeIsBytes(file: seq<Record>)
    ensures Size(file) == |Bytes(file)|
  {
    if file != [] {
      var n := |file| - 1;
      SizeIsBytes(file[..n]);
      assert file == file[..n] + [file[n]];
      BytesConcat(file[..n], [file[n]]);
      assert Bytes([file[n]]) == file[n] + Bytes([file[n]][1..]);
    }
  }
}
