/** BackupManager as an object: its two file names, its map manager and the directory it works in. */
module BackupManagers {
  import opened BackupText
  import opened Decimal
  import opened Manager
  import opened Rotation

  function InsertAt(s: string, pos: nat, piece: string): string
    requires pos <= |s|
  {
    s[..pos] + piece + s[pos..]
  }

  class BackupManager {
    var keyFilename: string
    var frequencyFilename: string
    var files: Directory
    const mapMgr: MapManager

    constructor (mgr: MapManager, dir: Directory)
      ensures mapMgr == mgr && files == dir && keyFilename == "" && frequencyFilename == ""
    {
      mapMgr, files, keyFilename, frequencyFilename := mgr, dir, "", "";
    }

    method SetFilenames(kfName: string, ffName: string, fExt: string)
      modifies this`keyFilename, this`frequencyFilename
      ensures keyFilename == kfName + ['.'] + fExt && frequencyFilename == ffName + ['.'] + fExt
    {
      keyFilename := kfName;
      frequencyFilename := ffName;
      keyFilename := keyFilename + ['.'];
      frequencyFilename := frequencyFilename + ['.'];
      keyFilename := keyFilename + fExt;
      frequencyFilename := frequencyFilename + fExt;
    }

    method RenameFiles()
      modifies this`files
      ensures files == Rotate(old(files), keyFilename, frequencyFilename, SLOTS - 1)
    {
      var posK := LastDot(keyFilename);
      var keyFName := InsertAt(keyFilename, posK, ['_']);
      posK := posK + 1;
      var posF := LastDot(frequencyFilename);
      var freqFName := InsertAt(frequencyFilename, posF, ['_']);
      posF := posF + 1;
      var i := SLOTS - 1;
      while i > 0
        invariant 0 <= i < SLOTS
        invariant Rotate(files, keyFilename, frequencyFilename, i) ==
                  Rotate(old(files), keyFilename, frequencyFilename, SLOTS - 1)
      {
        MoveOne(keyFilename, keyFName, posK, i);
        MoveOne(frequencyFilename, freqFName, posF, i);
        i := i - 1;
      }
    }

    /** One half of a turn: build the two names, and rename if the old one exists. */
    method MoveOne(name: string, stem: string, pos: nat, i: nat)
      requires pos == LastDot(name) + 1 && stem == InsertAt(name, pos - 1, ['_']) && 0 < i < SLOTS
      modifies this`files
      ensures files == MoveSlot(old(files), name, i)
    {
      var oldFile, newFile := stem, stem;
      SlotByInserts(name, i);
      if i == 1 {
        oldFile := name;
      } else {
        SlotByInserts(name, i - 1);
        oldFile := InsertAt(oldFile, pos, [Digit(i - 1)]);
      }
      if oldFile in files {
        newFile := InsertAt(newFile, pos, [Digit(i)]);
        files := Rename(files, oldFile, newFile);
      }
    }

    method BackupRequest()
      requires !mapMgr.writing
      modifies this`files
      ensures files == Backup(old(files), keyFilename, frequencyFilename, KeyFile(mapMgr.keyMap), RankText(mapMgr.ranking))
    {
      RenameFiles();
      var keyText, freqText := mapMgr.BackupRequest();
      files := files[keyFilename := keyText][frequencyFilename := freqText];
    }

    /** False without touching the maps when a file cannot be opened; otherwise what the map manager
        says, unless a conversion throws. */
    method RestoreRequest() returns (ok: bool, outcome: Outcome)
      modifies mapMgr
      ensures keyFilename !in files || frequencyFilename !in files ==>
                !ok && outcome == Completed && mapMgr.State() == old(mapMgr.State()) && mapMgr.writing == old(mapMgr.writing)
      ensures keyFilename in files && frequencyFilename in files ==>
                && (outcome, mapMgr.State()) == Restore(old(mapMgr.State()), files[keyFilename], files[frequencyFilename])
                && ok == outcome.Completed?
    {
      if keyFilename !in files || frequencyFilename !in files {
        return false, Completed;
      }
      outcome := mapMgr.RestoreRequest(files[keyFilename], files[frequencyFilename]);
      ok := outcome.Completed?;
    }
  }

  lemma SlotByInserts(name: string, i: nat)
    requires 0 < i < SLOTS
    ensures var p := LastDot(name);
            Slot(name, i) == InsertAt(InsertAt(name, p, ['_']), p + 1, [Digit(i)])
  {
    var p := LastDot(name);
    var stem := InsertAt(name, p, ['_']);
    assert stem[..p + 1] == name[..p] + ['_'] && stem[p + 1..] == name[p..];
  }
}
