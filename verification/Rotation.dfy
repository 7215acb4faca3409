/** The rotation of backup files. A directory is a map from file name to contents; the ten slots of a
    file are its name itself and the name with _1 to _9 in front of the extension. */
module Rotation {
  import opened Decimal
  import opened Sequences

  type Directory = map<string, string>

  const SLOTS: nat := 10

  /** The position of the last '.', or the length when there is none. */
  function LastDot(name: string): (p: nat)
    ensures p <= |name|
    ensures p < |name| ==> name[p] == '.'
    ensures forall i :: p < i < |name| ==> name[i] != '.'
    ensures p == |name| ==> forall i :: 0 <= i < |name| ==> name[i] != '.'
  {
    DotPosition(name, |name|)
  }

  function DotPosition(name: string, n: nat): (p: nat)
    requires n <= |name|
    requires forall i :: n <= i < |name| ==> name[i] != '.'
    ensures p <= |name|
    ensures p < |name| ==> name[p] == '.'
    ensures forall i :: p < i < |name| ==> name[i] != '.'
    ensures p == |name| ==> forall i :: 0 <= i < |name| ==> name[i] != '.'
  {
    if n == 0 then |name| else if name[n - 1] == '.' then n - 1 else DotPosition(name, n - 1)
  }

  function Slot(name: string, i: nat): string
    requires i < SLOTS
  {
    if i == 0 then name
    else name[..LastDot(name)] + ['_'] + [Digit(i)] + name[LastDot(name)..]
  }

  function Rename(d: Directory, from: string, to: string): Directory
    requires from in d
  {
    (d - {from})[to := d[from]]
  }

  /** One turn of the loop for one of the two names. */
  function MoveSlot(d: Directory, name: string, i: nat): Directory
    requires 0 < i < SLOTS
  {
    if Slot(name, i - 1) in d then Rename(d, Slot(name, i - 1), Slot(name, i)) else d
  }

  /** The loop from i down to 1, both names in each turn. */
  function Rotate(d: Directory, keyName: string, freqName: string, i: nat): Directory
    requires i < SLOTS
    decreases i
  {
    if i == 0 then d
    else Rotate(MoveSlot(MoveSlot(d, keyName, i), freqName, i), keyName, freqName, i - 1)
  }

  /** A whole backup: rotate, then write both base files. */
  function Backup(d: Directory, keyName: string, freqName: string, keyText: string, freqText: string): Directory {
    Rotate(d, keyName, freqName, SLOTS - 1)[keyName := keyText][freqName := freqText]
  }

  // ---------------------------------------------------------------- slots do not collide

  lemma DotIsUnique(s: string, p: nat)
    requires p <= |s|
    requires p < |s| ==> s[p] == '.'
    requires forall i :: p < i < |s| ==> s[i] != '.'
    requires p == |s| ==> forall i :: 0 <= i < |s| ==> s[i] != '.'
    ensures LastDot(s) == p
  {
    var q := LastDot(s);
    assert q < |s| ==> s[q] == '.';
  }

  lemma SlotShape(name: string, i: nat)
    requires 0 < i < SLOTS
    ensures var s, p := Slot(name, i), LastDot(name);
            && |s| == |name| + 2
            && LastDot(s) == p + 2
            && s[p + 1] == Digit(i)
            && s[..p] + s[p + 2..] == name
  {
    var s, p := Slot(name, i), LastDot(name);
    assert s[..p] == name[..p] && s[p + 2..] == name[p..];
    forall j | p + 2 < j < |s| ensures s[j] != '.' {
      assert s[j] == name[j - 2];
    }
    if p == |name| {
      forall j | 0 <= j < |s| ensures s[j] != '.' {
        assert j < p ==> s[j] == name[j];
      }
    }
    DotIsUnique(s, p + 2);
  }

  /** Numbered slots are different files, whatever the names. */
  lemma NumberedSlotsDiffer(a: string, i: nat, b: string, j: nat)
    requires 0 < i < SLOTS && 0 < j < SLOTS && Slot(a, i) == Slot(b, j)
    ensures a == b && i == j
  {
    SlotShape(a, i);
    SlotShape(b, j);
  }

  lemma SlotsDiffer(name: string, i: nat, j: nat)
    requires i < SLOTS && j < SLOTS && i != j
    ensures Slot(name, i) != Slot(name, j)
  {
    if i == 0 {
      SlotShape(name, j);
    } else if j == 0 {
      SlotShape(name, i);
    } else if Slot(name, i) == Slot(name, j) {
      NumberedSlotsDiffer(name, i, name, j);
    }
  }

  /** No slot of one name is a slot of the other. */
  ghost predicate Apart(a: string, b: string) {
    forall i, j :: 0 <= i < SLOTS && 0 <= j < SLOTS ==> Slot(a, i) != Slot(b, j)
  }

  /** Two names are apart unless they are equal or one is a numbered slot of the other. */
  lemma ApartIff(a: string, b: string)
    ensures Apart(a, b) <==> a != b && forall i :: 0 < i < SLOTS ==> a != Slot(b, i) && b != Slot(a, i)
  {
    if a != b && forall i :: 0 < i < SLOTS ==> a != Slot(b, i) && b != Slot(a, i) {
      forall i, j | 0 <= i < SLOTS && 0 <= j < SLOTS ensures Slot(a, i) != Slot(b, j) {
        if i > 0 && j > 0 && Slot(a, i) == Slot(b, j) {
          NumberedSlotsDiffer(a, i, b, j);
        }
      }
    } else if a == b {
      assert Slot(a, 0) == Slot(b, 0);
    } else {
      var i :| 0 < i < SLOTS && (a == Slot(b, i) || b == Slot(a, i));
      assert Slot(a, 0) == Slot(b, i) || Slot(a, i) == Slot(b, 0);
    }
  }

  /** The names the tracker uses. */
  lemma TrackerNamesApart()
    ensures Apart("keys.csv", "frequencies.csv")
    ensures Slot("keys.csv", 1) == "keys_1.csv" && Slot("frequencies.csv", 9) == "frequencies_9.csv"
  {
    DotIsUnique("keys.csv", 4);
    DotIsUnique("frequencies.csv", 11);
  }

  // ---------------------------------------------------------------- one name at a time

  datatype File = Absent | Present(text: string)

  function FileAt(d: Directory, f: string): File {
    if f in d then Present(d[f]) else Absent
  }

  /** The ten slots of a name, slot 0 first. */
  function View(d: Directory, name: string): (v: seq<File>)
    ensures |v| == SLOTS
  {
    seq(SLOTS, i requires 0 <= i < SLOTS => FileAt(d, Slot(name, i)))
  }

  function MoveInView(v: seq<File>, i: nat): seq<File>
    requires 0 < i < |v|
  {
    if v[i - 1].Present? then v[i := v[i - 1]][i - 1 := Absent] else v
  }

  function RotateView(v: seq<File>, i: nat): (r: seq<File>)
    requires i < |v|
    ensures |r| == |v|
    decreases i
  {
    if i == 0 then v else RotateView(MoveInView(v, i), i - 1)
  }

  lemma MoveOwnSlot(d: Directory, name: string, i: nat, j: nat)
    requires 0 < i < SLOTS && j < SLOTS
    ensures FileAt(MoveSlot(d, name, i), Slot(name, j)) ==
            if FileAt(d, Slot(name, i - 1)).Absent? then FileAt(d, Slot(name, j))
            else if j == i then FileAt(d, Slot(name, i - 1))
            else if j == i - 1 then Absent
            else FileAt(d, Slot(name, j))
  {
    if j != i {
      SlotsDiffer(name, j, i);
    }
    if j != i - 1 {
      SlotsDiffer(name, j, i - 1);
    }
  }

  lemma MoveOwnView(d: Directory, name: string, i: nat)
    requires 0 < i < SLOTS
    ensures View(MoveSlot(d, name, i), name) == MoveInView(View(d, name), i)
  {
    var v, v' := MoveInView(View(d, name), i), View(MoveSlot(d, name, i), name);
    forall j | 0 <= j < SLOTS ensures v'[j] == v[j] {
      MoveOwnSlot(d, name, i, j);
    }
  }

  lemma MoveKeepsFile(d: Directory, name: string, i: nat, f: string)
    requires 0 < i < SLOTS && f != Slot(name, i) && f != Slot(name, i - 1)
    ensures FileAt(MoveSlot(d, name, i), f) == FileAt(d, f)
  {
  }

  lemma MoveOtherView(d: Directory, name: string, other: string, i: nat)
    requires 0 < i < SLOTS && (Apart(name, other) || Apart(other, name))
    ensures View(MoveSlot(d, name, i), other) == View(d, other)
  {
    var v, v' := View(d, other), View(MoveSlot(d, name, i), other);
    forall j | 0 <= j < SLOTS ensures v'[j] == v[j] {
      assert Slot(other, j) != Slot(name, i) && Slot(other, j) != Slot(name, i - 1);
      MoveKeepsFile(d, name, i, Slot(other, j));
    }
  }

  lemma {:induction false} RotateViews(d: Directory, keyName: string, freqName: string, i: nat)
    requires i < SLOTS && Apart(keyName, freqName)
    ensures View(Rotate(d, keyName, freqName, i), keyName) == RotateView(View(d, keyName), i)
    ensures View(Rotate(d, keyName, freqName, i), freqName) == RotateView(View(d, freqName), i)
    decreases i
  {
    if i > 0 {
      var d1 := MoveSlot(d, keyName, i);
      MoveOwnView(d, keyName, i);
      MoveOtherView(d, keyName, freqName, i);
      MoveOwnView(d1, freqName, i);
      MoveOtherView(d1, freqName, keyName, i);
      RotateViews(MoveSlot(d1, freqName, i), keyName, freqName, i - 1);
    }
  }

  /** The loop is a shift by one: it goes down the slots, so each target has been moved on before it is
      overwritten. Only the last slot can lose its file, and only to a newer one. */
  lemma {:induction false} RotateIsShift(v: seq<File>, i: nat)
    requires 0 < i < |v|
    ensures var r := RotateView(v, i);
            && r[0] == Absent
            && (forall j :: 0 < j < i ==> r[j] == v[j - 1])
            && r[i] == (if v[i - 1].Present? then v[i - 1] else v[i])
            && forall j :: i < j < |v| ==> r[j] == v[j]
    decreases i
  {
    if i > 1 {
      RotateIsShift(MoveInView(v, i), i - 1);
    }
  }

  // ---------------------------------------------------------------- the log

  datatype Snapshot = Snapshot(keyText: string, freqText: string)

  function AfterBackups(keyName: string, freqName: string, snaps: seq<Snapshot>): Directory {
    if snaps == [] then map[]
    else
      var last := snaps[|snaps| - 1];
      Backup(AfterBackups(keyName, freqName, snaps[..|snaps| - 1]), keyName, freqName, last.keyText, last.freqText)
  }

  function Texts(snaps: seq<Snapshot>, keys: bool): seq<string> {
    seq(|snaps|, i requires 0 <= i < |snaps| => if keys then snaps[i].keyText else snaps[i].freqText)
  }

  /** Slot i holds the text written i backups ago; slots that were never reached are absent. */
  function LogView(texts: seq<string>): seq<File> {
    seq(SLOTS, i requires 0 <= i < SLOTS => if i < |texts| then Present(texts[|texts| - 1 - i]) else Absent)
  }

  /** Both files keep the log, slot by slot from the same snapshots. */
  ghost predicate IsLog(d: Directory, keyName: string, freqName: string, snaps: seq<Snapshot>) {
    View(d, keyName) == LogView(Texts(snaps, true)) && View(d, freqName) == LogView(Texts(snaps, false))
  }

  lemma LogStep(texts: seq<string>, text: string)
    ensures RotateView(LogView(texts), SLOTS - 1)[0 := Present(text)] == LogView(texts + [text])
  {
    RotateIsShift(LogView(texts), SLOTS - 1);
  }

  lemma WriteOwnView(d: Directory, name: string, text: string)
    ensures View(d[name := text], name) == View(d, name)[0 := Present(text)]
  {
    forall j | 0 < j < SLOTS ensures Slot(name, j) != name {
      SlotsDiffer(name, j, 0);
    }
  }

  lemma WriteOtherView(d: Directory, name: string, other: string, text: string)
    requires forall i :: 0 <= i < SLOTS ==> Slot(other, i) != name
    ensures View(d[name := text], other) == View(d, other)
  {
  }

  lemma BackupViews(d: Directory, keyName: string, freqName: string, keyText: string, freqText: string)
    requires Apart(keyName, freqName)
    ensures var d' := Backup(d, keyName, freqName, keyText, freqText);
            && View(d', keyName) == RotateView(View(d, keyName), SLOTS - 1)[0 := Present(keyText)]
            && View(d', freqName) == RotateView(View(d, freqName), SLOTS - 1)[0 := Present(freqText)]
  {
    var d1 := Rotate(d, keyName, freqName, SLOTS - 1);
    RotateViews(d, keyName, freqName, SLOTS - 1);
    assert Slot(keyName, 0) == keyName && Slot(freqName, 0) == freqName;
    WriteOwnView(d1, keyName, keyText);
    WriteOtherView(d1, keyName, freqName, keyText);
    WriteOwnView(d1[keyName := keyText], freqName, freqText);
    WriteOtherView(d1[keyName := keyText], freqName, keyName, freqText);
  }

  lemma TextsExtend(snaps: seq<Snapshot>, last: Snapshot)
    ensures Texts(snaps + [last], true) == Texts(snaps, true) + [last.keyText]
    ensures Texts(snaps + [last], false) == Texts(snaps, false) + [last.freqText]
  {
  }

  lemma BackupExtendsLog(d: Directory, keyName: string, freqName: string, snaps: seq<Snapshot>, last: Snapshot)
    requires Apart(keyName, freqName) && IsLog(d, keyName, freqName, snaps)
    ensures IsLog(Backup(d, keyName, freqName, last.keyText, last.freqText), keyName, freqName, snaps + [last])
  {
    BackupViews(d, keyName, freqName, last.keyText, last.freqText);
    LogStep(Texts(snaps, true), last.keyText);
    LogStep(Texts(snaps, false), last.freqText);
    TextsExtend(snaps, last);
  }

  lemma {:induction false} BackupsKeepLog(keyName: string, freqName: string, snaps: seq<Snapshot>)
    requires Apart(keyName, freqName)
    ensures IsLog(AfterBackups(keyName, freqName, snaps), keyName, freqName, snaps)
  {
    if snaps != [] {
      var front := snaps[..|snaps| - 1];
      SplitLast(snaps);
      BackupsKeepLog(keyName, freqName, front);
      BackupExtendsLog(AfterBackups(keyName, freqName, front), keyName, freqName, front, snaps[|snaps| - 1]);
    }
  }

  /** In a log, both files of slot i come from the snapshot taken i backups ago. */
  lemma LogAt(d: Directory, keyName: string, freqName: string, snaps: seq<Snapshot>, i: nat)
    requires IsLog(d, keyName, freqName, snaps) && i < SLOTS && i < |snaps|
    ensures FileAt(d, Slot(keyName, i)) == Present(snaps[|snaps| - 1 - i].keyText)
    ensures FileAt(d, Slot(freqName, i)) == Present(snaps[|snaps| - 1 - i].freqText)
  {
    assert View(d, keyName)[i] == LogView(Texts(snaps, true))[i];
    assert View(d, freqName)[i] == LogView(Texts(snaps, false))[i];
  }

  function TenSnapshots(): seq<Snapshot> {
    seq(SLOTS, i => Snapshot("k", "f"))
  }

  /** One file cannot hold a key text and a ranking text. */
  lemma CollisionBreaksLog(d: Directory, keyName: string, freqName: string, i: nat, j: nat)
    requires i < SLOTS && j < SLOTS && Slot(keyName, i) == Slot(freqName, j)
    ensures !IsLog(d, keyName, freqName, TenSnapshots())
  {
    if IsLog(d, keyName, freqName, TenSnapshots()) {
      LogAt(d, keyName, freqName, TenSnapshots(), i);
      LogAt(d, keyName, freqName, TenSnapshots(), j);
    }
  }

  ghost predicate AlwaysLogs(keyName: string, freqName: string) {
    forall snaps :: IsLog(AfterBackups(keyName, freqName, snaps), keyName, freqName, snaps)
  }

  /** Starting from no files, every sequence of backups leaves the log of the last ten snapshots exactly
      when the two names are apart. */
  lemma RotationLogIff(keyName: string, freqName: string)
    ensures AlwaysLogs(keyName, freqName) <==> Apart(keyName, freqName)
  {
    if Apart(keyName, freqName) {
      forall snaps ensures IsLog(AfterBackups(keyName, freqName, snaps), keyName, freqName, snaps) {
        BackupsKeepLog(keyName, freqName, snaps);
      }
    } else {
      var i, j :| 0 <= i < SLOTS && 0 <= j < SLOTS && Slot(keyName, i) == Slot(freqName, j);
      CollisionBreaksLog(AfterBackups(keyName, freqName, TenSnapshots()), keyName, freqName, i, j);
    }
  }

  predicate IsSlotOf(f: string, name: string) {
    exists i :: 0 <= i < SLOTS && f == Slot(name, i)
  }

  /** No other file of the directory is touched. */
  lemma {:induction false} RotateKeepsOthers(d: Directory, keyName: string, freqName: string, i: nat, f: string)
    requires i < SLOTS && !IsSlotOf(f, keyName) && !IsSlotOf(f, freqName)
    ensures FileAt(Rotate(d, keyName, freqName, i), f) == FileAt(d, f)
    decreases i
  {
    if i > 0 {
      hide Slot, MoveSlot, FileAt;
      MoveKeepsFile(d, keyName, i, f);
      MoveKeepsFile(MoveSlot(d, keyName, i), freqName, i, f);
      RotateKeepsOthers(MoveSlot(MoveSlot(d, keyName, i), freqName, i), keyName, freqName, i - 1, f);
    }
  }
}
