/**
 * `EyeHandler` (main.py): the live handler object. Its `pending` table is
 * updated in place; the document write, the directory creation and the
 * file moves are appended to `effects` in the order the source performs
 * them.
 */
module Handler {
  import opened Wrappers
  import opened Paths
  import opened Dates
  import opened Names
  import opened Pairing

  class EyeHandler {
    var pending: Table
    var effects: seq<Effect>
    const outputDir: string
    const archiveDir: string

    /** `EyeHandler.__init__`: an empty table for the given output and archive directories. */
    constructor (outputDir: string, archiveDir: string)
      ensures this.outputDir == outputDir && this.archiveDir == archiveDir
      ensures pending == map[] && effects == []
    {
      this.outputDir := outputDir;
      this.archiveDir := archiveDir;
      pending := map[];
      effects := [];
    }

    /** `on_created`: directories and non-image names are dropped before `_process_file`. */
    method OnCreated(path: string, isDirectory: bool) returns (outcome: Outcome)
      modifies this
      ensures var r := Handle(outputDir, archiveDir, old(pending), Created(path, isDirectory));
              pending == r.table && effects == old(effects) + r.effects && outcome == r.outcome
      ensures OneSided(old(pending)) ==> OneSided(pending)
    {
      if isDirectory || !HasImageExtension(path) {
        return Ignored;
      }
      outcome := ProcessFile(path);
    }

    /**
     * `_process_file`: parse the name, parse its date token (a failure
     * leaves the table alone), record the path, and hand a completed entry
     * to `create_pdf`.
     */
    method ProcessFile(path: string) returns (outcome: Outcome)
      modifies this
      ensures var r := Step(outputDir, archiveDir, old(pending), path);
              pending == r.table && effects == old(effects) + r.effects && outcome == r.outcome
      ensures OneSided(old(pending)) ==> OneSided(pending)
    {
      StepKeepsOneSided(outputDir, archiveDir, pending, path);
      var fn := Basename(path);
      var name := ParseName(fn);
      if name.None? {
        return Ignored;
      }
      var n := name.value;
      var date := ParseDate(n.dateToken);
      if date.None? {
        return BadDate(n.dateToken);
      }
      var d := date.value;
      pending := pending[n.key := EntryOf(pending, n.key)[n.side := path]];
      if Complete(pending[n.key]) {
        CreatePdf(n.key, d.year, Pad2(d.month), Pad2(d.day));
        return Emitted(n.key);
      }
      return Recorded(n.key);
    }

    /**
     * `create_pdf`: write the document with the left page first, create the
     * archive partition, move both captures into it, and drop the key.
     */
    method CreatePdf(key: string, year: nat, month: string, day: string)
      requires key in pending && Complete(pending[key])
      modifies this
      ensures pending == old(pending) - {key}
      ensures effects == old(effects) + PdfEffects(outputDir, archiveDir, key, old(pending)[key][L], old(pending)[key][R], year, month, day)
    {
      var paths := [pending[key][L], pending[key][R]];
      var outPdf := PathJoin(outputDir, key + ".pdf");
      effects := effects + [Emit(key, outPdf, paths)];
      var archivePath := ArchiveDir(archiveDir, year, month, day);
      effects := effects + [MakeDirs(archivePath)];
      ghost var before := effects;
      for i := 0 to |paths|
        invariant pending == old(pending)
        invariant effects == before + Moves(paths[..i], archivePath)
      {
        effects := effects + [Move(paths[i], PathJoin(archivePath, Basename(paths[i])))];
        assert Moves(paths[..i + 1], archivePath) == Moves(paths[..i], archivePath) + [Move(paths[i], PathJoin(archivePath, Basename(paths[i])))];
      }
      assert paths[..|paths|] == paths;
      pending := pending - {key};
    }
  }
}
