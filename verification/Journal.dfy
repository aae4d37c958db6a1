/**
 The write-ahead journal (crates/protocol/onx-state-model/src/storage.rs): how a journal is
 replayed line by line, and why a replay may be interrupted anywhere and started over.
 A Put writes a temporary file and renames it over its target, so a crash can leave a
 temporary file with any content behind; Disk keeps those files apart.
 */
module Journals {
  import opened Wrappers

  datatype Line<K, V> = Delete(key: K) | Put(key: K, value: V)

  function ReplayLine<K, V>(line: Line<K, V>, files: map<K, V>): map<K, V> {
    match line
    case Delete(k) => files - {k}
    case Put(k, v) => files[k := v]
  }

  function Replay<K, V>(lines: seq<Line<K, V>>, files: map<K, V>): map<K, V> {
    if lines == [] then files else Replay(lines[1..], ReplayLine(lines[0], files))
  }

  /** A batch as journal lines: all removals first, then all writes. */
  function BatchLines<K, V>(removes: seq<K>, puts: seq<(K, V)>): seq<Line<K, V>> {
    seq(|removes|, i requires 0 <= i < |removes| => Delete(removes[i]))
    + seq(|puts|, i requires 0 <= i < |puts| => Put(puts[i].0, puts[i].1))
  }

  /** The last line on key k, which alone decides what a replay leaves under k. */
  function LastOn<K(==), V>(lines: seq<Line<K, V>>, k: K): Option<Line<K, V>> {
    if lines == [] then None
    else if lines[|lines| - 1].key == k then Some(lines[|lines| - 1])
    else LastOn(lines[..|lines| - 1], k)
  }

  lemma {:induction false} ReplayConcat<K, V>(a: seq<Line<K, V>>, b: seq<Line<K, V>>, files: map<K, V>)
    ensures Replay(a + b, files) == Replay(b, Replay(a, files))
  {
    if a == [] {
      assert a + b == b;
    } else {
      ReplayConcat(a[1..], b, ReplayLine(a[0], files));
      assert (a + b)[1..] == a[1..] + b;
    }
  }

  lemma {:induction false} ReplayAt<K, V>(lines: seq<Line<K, V>>, files: map<K, V>, k: K)
    ensures
      var last := LastOn(lines, k);
      var done := Replay(lines, files);
      && (last.None? ==> (k in done <==> k in files) && (k in files ==> done[k] == files[k]))
      && (last.Some? && last.value.Delete? ==> k !in done)
      && (last.Some? && last.value.Put? ==> k in done && done[k] == last.value.value)
    decreases |lines|
  {
    if lines != [] {
      var n := |lines| - 1;
      ReplayAt(lines[..n], files, k);
      assert lines == lines[..n] + [lines[n]];
      ReplayConcat(lines[..n], [lines[n]], files);
      assert Replay([lines[n]], Replay(lines[..n], files)) == ReplayLine(lines[n], Replay(lines[..n], files));
    }
  }

  datatype Disk<K, V> = Disk(files: map<K, V>, tmps: map<K, V>)

  /** One line on disk; for a Put, the temporary file has been renamed. */
  function DiskLine<K, V>(line: Line<K, V>, d: Disk<K, V>): Disk<K, V> {
    Disk(ReplayLine(line, d.files), if line.Put? then d.tmps - {line.key} else d.tmps)
  }

  function ReplayOnDisk<K, V>(lines: seq<Line<K, V>>, d: Disk<K, V>): Disk<K, V> {
    if lines == [] then d else ReplayOnDisk(lines[1..], DiskLine(lines[0], d))
  }

  ghost function PutKeys<K, V>(lines: seq<Line<K, V>>): set<K> {
    set i | 0 <= i < |lines| && lines[i].Put? :: lines[i].key
  }

  lemma {:induction false} ReplayOnDiskIs<K, V>(lines: seq<Line<K, V>>, d: Disk<K, V>)
    ensures ReplayOnDisk(lines, d) == Disk(Replay(lines, d.files), d.tmps - PutKeys(lines))
  {
    if lines == [] {
      assert d.tmps - PutKeys(lines) == d.tmps;
    } else {
      var d1 := DiskLine(lines[0], d);
      ReplayOnDiskIs(lines[1..], d1);
      var head := if lines[0].Put? then {lines[0].key} else {};
      assert PutKeys(lines) == head + PutKeys(lines[1..]) by {
        assert forall i :: 0 <= i < |lines| - 1 ==> lines[1..][i] == lines[i + 1];
        forall k | k in PutKeys(lines[1..])
          ensures k in PutKeys(lines)
        {
          var i :| 0 <= i < |lines[1..]| && lines[1..][i].Put? && lines[1..][i].key == k;
          assert lines[i + 1].key == k;
        }
        forall k | k in PutKeys(lines)
          ensures k in head + PutKeys(lines[1..])
        {
          var i :| 0 <= i < |lines| && lines[i].Put? && lines[i].key == k;
          if i > 0 {
            assert lines[1..][i - 1].key == k;
          }
        }
      }
    }
  }

  /** d' is what a crash during the replay of lines on d can leave: some lines are done, and the
      next one, if it is a Put, may have left any content in its temporary file. */
  ghost predicate CrashLeaves<K, V>(lines: seq<Line<K, V>>, d: Disk<K, V>, d': Disk<K, V>) {
    exists n :: 0 <= n <= |lines| && CrashAtLine(lines, n, d, d')
  }

  ghost predicate CrashAtLine<K, V>(lines: seq<Line<K, V>>, n: nat, d: Disk<K, V>, d': Disk<K, V>)
    requires n <= |lines|
  {
    var done := ReplayOnDisk(lines[..n], d);
    || d' == done
    || (n < |lines| && lines[n].Put? && d'.files == done.files
        && lines[n].key in d'.tmps && d'.tmps - {lines[n].key} == done.tmps - {lines[n].key})
  }

  /** d and e differ at most in files that lines write or remove. */
  ghost predicate AgreeOutside<K(!new), V>(lines: seq<Line<K, V>>, d: Disk<K, V>, e: Disk<K, V>) {
    && (forall k :: LastOn(lines, k).None? ==>
         (k in d.files <==> k in e.files) && (k in d.files ==> d.files[k] == e.files[k]))
    && d.tmps - PutKeys(lines) == e.tmps - PutKeys(lines)
  }

  lemma {:induction false} LastOnPrefix<K, V>(lines: seq<Line<K, V>>, n: nat, k: K)
    requires n <= |lines| && LastOn(lines, k).None?
    ensures LastOn(lines[..n], k).None?
    decreases |lines|
  {
    if n < |lines| {
      LastOnPrefix(lines[..|lines| - 1], n, k);
      assert lines[..|lines| - 1][..n] == lines[..n];
    } else {
      assert lines[..n] == lines;
    }
  }

  lemma CrashChangesOnlyItsFiles<K(!new), V>(lines: seq<Line<K, V>>, d: Disk<K, V>, d': Disk<K, V>)
    requires CrashLeaves(lines, d, d')
    ensures AgreeOutside(lines, d, d')
  {
    var n :| 0 <= n <= |lines| && CrashAtLine(lines, n, d, d');
    ReplayOnDiskIs(lines[..n], d);
    forall k | LastOn(lines, k).None?
      ensures (k in d.files <==> k in d'.files) && (k in d.files ==> d.files[k] == d'.files[k])
    {
      LastOnPrefix(lines, n, k);
      ReplayAt(lines[..n], d.files, k);
    }
    assert PutKeys(lines[..n]) <= PutKeys(lines);
    var done := ReplayOnDisk(lines[..n], d);
    assert done.tmps - PutKeys(lines) == d.tmps - PutKeys(lines);
    if d' != done {
      assert lines[n].key in PutKeys(lines);
      assert d'.tmps - PutKeys(lines) == (d'.tmps - {lines[n].key}) - PutKeys(lines);
      assert done.tmps - PutKeys(lines) == (done.tmps - {lines[n].key}) - PutKeys(lines);
    }
  }

  lemma ReplayForgetsItsFiles<K(!new), V>(lines: seq<Line<K, V>>, d: Disk<K, V>, e: Disk<K, V>)
    requires AgreeOutside(lines, d, e)
    ensures ReplayOnDisk(lines, d) == ReplayOnDisk(lines, e)
  {
    ReplayOnDiskIs(lines, d);
    ReplayOnDiskIs(lines, e);
    var x, y := Replay(lines, d.files), Replay(lines, e.files);
    forall k
      ensures (k in x <==> k in y) && (k in x ==> x[k] == y[k])
    {
      ReplayAt(lines, d.files, k);
      ReplayAt(lines, e.files, k);
    }
    assert x == y;
  }

  /** Any number of crashes, each during a replay that started on what the crash before had left,
      followed by one complete replay, leave exactly what one uninterrupted replay leaves. */
  lemma {:induction false} CrashesDoNotMatter<K(!new), V>(lines: seq<Line<K, V>>, disks: seq<Disk<K, V>>)
    requires |disks| > 0
    requires forall i :: 0 <= i < |disks| - 1 ==> CrashLeaves(lines, disks[i], disks[i + 1])
    ensures ReplayOnDisk(lines, disks[|disks| - 1]) == ReplayOnDisk(lines, disks[0])
    decreases |disks|
  {
    if |disks| > 1 {
      var n := |disks| - 1;
      assert CrashLeaves(lines, disks[n - 1], disks[n - 1 + 1]);
      CrashesDoNotMatter(lines, disks[..n]);
      CrashChangesOnlyItsFiles(lines, disks[n - 1], disks[n]);
      ReplayForgetsItsFiles(lines, disks[n - 1], disks[n]);
    }
  }

  /** A batch whose journal was written in full is committed exactly, however often its replay is
      interrupted, and no temporary file survives. */
  lemma CommitSurvivesCrashes<K(!new), V>(lines: seq<Line<K, V>>, disks: seq<Disk<K, V>>)
    requires |disks| > 0 && disks[0].tmps == map[]
    requires forall i :: 0 <= i < |disks| - 1 ==> CrashLeaves(lines, disks[i], disks[i + 1])
    ensures ReplayOnDisk(lines, disks[|disks| - 1]) == Disk(Replay(lines, disks[0].files), map[])
  {
    CrashesDoNotMatter(lines, disks);
    ReplayOnDiskIs(lines, disks[0]);
  }
}
