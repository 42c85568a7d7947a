/**
 * The live pairing engine as values: the pending table, what one
 * `_process_file` call does to it, the records that stand for the
 * document write and the file moves of `create_pdf`, and the properties
 * that hold over any sequence of file-created events.
 */
module Pairing {
  import opened Wrappers
  import opened Strings
  import opened Paths
  import opened Dates
  import opened Names

  /** The paths seen so far for one key, by side. */
  type Entry = map<Side, string>

  /** `EyeHandler.pending`: pairing key to partial entry. */
  type Table = map<string, Entry>

  /**
   * What the engine does to the outside world, in order: write a document
   * (`Image.save` with the pages in order), create a directory
   * (`os.makedirs`), move a file (`os.rename`).
   */
  datatype Effect =
    | Emit(key: string, target: string, pages: seq<string>)
    | MakeDirs(dir: string)
    | Move(source: string, destination: string)

  /** How one file-created notification ended. `BadDate` stands for the `ValueError` that `strptime` raises. */
  datatype Outcome = Ignored | BadDate(token: string) | Recorded(key: string) | Emitted(key: string)

  datatype StepResult = StepResult(table: Table, outcome: Outcome, effects: seq<Effect>)

  /** `pending[key]` on the `defaultdict`: an absent key reads as an empty entry. */
  function EntryOf(t: Table, key: string): Entry
  {
    if key in t then t[key] else map[]
  }

  /** Both sides are present. */
  predicate Complete<V>(e: map<Side, V>)
  {
    L in e && R in e
  }

  /** `pending[key][side] = path`: the last path seen for a side wins, and nothing else changes. */
  function Record(t: Table, key: string, side: Side, path: string): (r: Table)
    ensures r.Keys == t.Keys + {key}
    ensures side in r[key] && r[key][side] == path
    ensures forall s :: s != side ==> (s in r[key] <==> s in EntryOf(t, key))
    ensures forall s :: s != side && s in EntryOf(t, key) ==> r[key][s] == EntryOf(t, key)[s]
    ensures forall k :: k in t && k != key ==> r[k] == t[k]
  {
    t[key := EntryOf(t, key)[side := path]]
  }

  /** `os.path.join(archive_dir, str(year), month, day)` */
  function ArchiveDir(root: string, year: nat, month: string, day: string): string
  {
    PathJoin(PathJoin(PathJoin(root, DecimalString(year)), month), day)
  }

  /** One `os.rename(p, os.path.join(dir, os.path.basename(p)))` per path, in order. */
  function Moves(paths: seq<string>, dir: string): seq<Effect>
  {
    seq(|paths|, i requires 0 <= i < |paths| => Move(paths[i], PathJoin(dir, Basename(paths[i]))))
  }

  /** The effects of `create_pdf(key, year, month, day)` once its entry holds `pathL` and `pathR`. */
  function PdfEffects(outputDir: string, archiveDir: string, key: string, pathL: string, pathR: string,
                      year: nat, month: string, day: string): seq<Effect>
  {
    var dir := ArchiveDir(archiveDir, year, month, day);
    [Emit(key, PathJoin(outputDir, key + ".pdf"), [pathL, pathR]), MakeDirs(dir)] + Moves([pathL, pathR], dir)
  }

  /** `EyeHandler._process_file(path)` */
  function Step(outputDir: string, archiveDir: string, t: Table, path: string): StepResult
  {
    match ParseName(Basename(path))
    case None => StepResult(t, Ignored, [])
    case Some(n) =>
      match ParseDate(n.dateToken)
      case None => StepResult(t, BadDate(n.dateToken), [])
      case Some(d) => Accept(outputDir, archiveDir, t, path, n, d)
  }

  /** The part of `_process_file` after the name and the date have been read: record, and emit once both sides are in. */
  function Accept(outputDir: string, archiveDir: string, t: Table, path: string, n: Name, d: Date): StepResult
    requires ValidDate(d)
  {
    var t' := Record(t, n.key, n.side, path);
    if Complete(t'[n.key]) then
      StepResult(t' - {n.key}, Emitted(n.key),
                 PdfEffects(outputDir, archiveDir, n.key, t'[n.key][L], t'[n.key][R], d.year, Pad2(d.month), Pad2(d.day)))
    else
      StepResult(t', Recorded(n.key), [])
  }

  /** A file-created notification from the watched directory. */
  datatype Event = Created(path: string, isDirectory: bool)

  /** `EyeHandler.on_created(event)` */
  function Handle(outputDir: string, archiveDir: string, t: Table, ev: Event): StepResult
  {
    if ev.isDirectory || !HasImageExtension(ev.path) then StepResult(t, Ignored, [])
    else Step(outputDir, archiveDir, t, ev.path)
  }

  /**
   * Live watching as a sequence of notifications handled one after another
   * on the observer's thread. A date `strptime` rejects raises out of
   * `on_created` and ends that thread, so no later notification is handled.
   */
  function Run(outputDir: string, archiveDir: string, t: Table, events: seq<Event>): (Table, seq<Effect>)
    decreases |events|
  {
    if events == [] then (t, [])
    else
      var first := Handle(outputDir, archiveDir, t, events[0]);
      if first.outcome.BadDate? then (first.table, first.effects)
      else
        var rest := Run(outputDir, archiveDir, first.table, events[1..]);
        (rest.0, first.effects + rest.1)
  }

  /** Every pending key holds exactly one side: a complete pair never stays in the table. */
  predicate OneSided(t: Table)
  {
    forall k :: k in t ==> (L in t[k] <==> R !in t[k])
  }

  /** `path` names a capture file of `key` taken on `side`. */
  predicate Labelled(path: string, key: string, side: Side)
  {
    ParseName(Basename(path)).Some? && ParseName(Basename(path)).value.key == key && ParseName(Basename(path)).value.side == side
  }

  /** Every pending path is filed under its own key and side. */
  predicate WellFormed(t: Table)
  {
    forall k, s :: k in t && s in t[k] ==> Labelled(t[k][s], k, s)
  }

  /** A document's pages are the key's left capture followed by its right capture. */
  predicate EmitOrdered(e: Effect)
  {
    e.Emit? ==> |e.pages| == 2 && Labelled(e.pages[0], e.key, L) && Labelled(e.pages[1], e.key, R)
  }

  /** A name the filters reject leaves the table as it was and does nothing. */
  lemma IgnoredNames(outputDir: string, archiveDir: string, t: Table, ev: Event)
    requires || ev.isDirectory
             || !HasImageExtension(ev.path)
             || |Tokens(Basename(ev.path))| < 5
             || (Tokens(Basename(ev.path))[3] != "L" && Tokens(Basename(ev.path))[3] != "R")
    ensures Handle(outputDir, archiveDir, t, ev) == StepResult(t, Ignored, [])
  {
  }

  /** A date token `strptime` rejects raises before the table is touched. */
  lemma BadDateLeavesTable(outputDir: string, archiveDir: string, t: Table, path: string)
    requires ParseName(Basename(path)).Some?
    requires ParseDate(ParseName(Basename(path)).value.dateToken).None?
    ensures Step(outputDir, archiveDir, t, path).table == t
    ensures Step(outputDir, archiveDir, t, path).effects == []
    ensures Step(outputDir, archiveDir, t, path).outcome.BadDate?
  {
  }

  /**
   * After a call returns, the key it touched does not hold both sides, and
   * the invariant that no key does is preserved.
   */
  lemma StepKeepsOneSided(outputDir: string, archiveDir: string, t: Table, path: string)
    ensures var n := ParseName(Basename(path));
            n.Some? && ParseDate(n.value.dateToken).Some? && n.value.key in Step(outputDir, archiveDir, t, path).table
            ==> !Complete(Step(outputDir, archiveDir, t, path).table[n.value.key])
    ensures OneSided(t) ==> OneSided(Step(outputDir, archiveDir, t, path).table)
  {
    var r := Step(outputDir, archiveDir, t, path);
    match ParseName(Basename(path))
    case None =>
    case Some(n) =>
      match ParseDate(n.dateToken)
      case None =>
      case Some(d) =>
        var t' := Record(t, n.key, n.side, path);
        if !Complete(t'[n.key]) && OneSided(t) {
          forall k | k in r.table
            ensures L in r.table[k] <==> R !in r.table[k]
          {
            if k != n.key {
              assert r.table[k] == t[k];
            }
          }
        }
  }

  /** Accepting a name that does not complete its pair records it (keep-last) and does nothing else. */
  lemma StepRecords(outputDir: string, archiveDir: string, t: Table, path: string)
    requires ParseName(Basename(path)).Some?
    requires ParseDate(ParseName(Basename(path)).value.dateToken).Some?
    requires var n := ParseName(Basename(path)).value;
             !Complete(Record(t, n.key, n.side, path)[n.key])
    ensures var n := ParseName(Basename(path)).value;
            Step(outputDir, archiveDir, t, path) == StepResult(Record(t, n.key, n.side, path), Recorded(n.key), [])
  {
  }

  /**
   * Completing a pair removes the key, leaves every other key alone and
   * emits exactly one document, pages left then right, followed by moves of
   * both captures into the partition of the date written in the key.
   */
  lemma StepEmits(outputDir: string, archiveDir: string, t: Table, path: string)
    requires ParseName(Basename(path)).Some?
    requires ParseDate(ParseName(Basename(path)).value.dateToken).Some?
    requires var n := ParseName(Basename(path)).value;
             Complete(Record(t, n.key, n.side, path)[n.key])
    ensures var n := ParseName(Basename(path)).value;
            var parts := Split(n.key, '_');
            && |parts| >= 2 && ParseDate(parts[1]).Some?
            && var d := ParseDate(parts[1]).value;
               var dir := ArchiveDir(archiveDir, d.year, Pad2(d.month), Pad2(d.day));
               var e := Record(t, n.key, n.side, path)[n.key];
               var r := Step(outputDir, archiveDir, t, path);
               && r.outcome == Emitted(n.key)
               && r.table == t - {n.key}
               && r.effects == [Emit(n.key, PathJoin(outputDir, n.key + ".pdf"), [e[L], e[R]]),
                                MakeDirs(dir),
                                Move(e[L], PathJoin(dir, Basename(e[L]))),
                                Move(e[R], PathJoin(dir, Basename(e[R])))]
  {
    var n := ParseName(Basename(path)).value;
    var d := ParseDate(n.dateToken).value;
    KeyRoundTrip(Basename(path));
    assert Step(outputDir, archiveDir, t, path) == Accept(outputDir, archiveDir, t, path, n, d);
    AcceptEmits(outputDir, archiveDir, t, path, n, d);
  }

  lemma AcceptEmits(outputDir: string, archiveDir: string, t: Table, path: string, n: Name, d: Date)
    requires ValidDate(d) && Complete(Record(t, n.key, n.side, path)[n.key])
    ensures var dir := ArchiveDir(archiveDir, d.year, Pad2(d.month), Pad2(d.day));
            var e := Record(t, n.key, n.side, path)[n.key];
            var r := Accept(outputDir, archiveDir, t, path, n, d);
            && r.outcome == Emitted(n.key)
            && r.table == t - {n.key}
            && r.effects == [Emit(n.key, PathJoin(outputDir, n.key + ".pdf"), [e[L], e[R]]),
                             MakeDirs(dir),
                             Move(e[L], PathJoin(dir, Basename(e[L]))),
                             Move(e[R], PathJoin(dir, Basename(e[R])))]
  {
    var t' := Record(t, n.key, n.side, path);
    assert t' - {n.key} == t - {n.key};
    var dir := ArchiveDir(archiveDir, d.year, Pad2(d.month), Pad2(d.day));
    var e := t'[n.key];
    var moves := Moves([e[L], e[R]], dir);
    assert moves == [Move(e[L], PathJoin(dir, Basename(e[L]))), Move(e[R], PathJoin(dir, Basename(e[R])))];
  }

  /** Filing a path under its own key and side keeps every pending path filed correctly. */
  lemma RecordKeepsWellFormed(t: Table, key: string, side: Side, path: string)
    requires WellFormed(t) && Labelled(path, key, side)
    ensures WellFormed(Record(t, key, side, path))
  {
    var t' := Record(t, key, side, path);
    forall k, s | k in t' && s in t'[k]
      ensures Labelled(t'[k][s], k, s)
    {
      if k != key {
        assert t'[k] == t[k];
      } else if s != side {
        assert t'[k][s] == t[k][s];
      }
    }
  }

  /** The only document among the effects of `create_pdf` is ordered when its two paths are the key's left and right captures. */
  lemma PdfEffectsOrdered(outputDir: string, archiveDir: string, key: string, pathL: string, pathR: string,
                          year: nat, month: string, day: string)
    requires Labelled(pathL, key, L) && Labelled(pathR, key, R)
    ensures forall e :: e in PdfEffects(outputDir, archiveDir, key, pathL, pathR, year, month, day) ==> EmitOrdered(e)
  {
    var emit := Emit(key, PathJoin(outputDir, key + ".pdf"), [pathL, pathR]);
    PdfEffectsShape(outputDir, archiveDir, key, pathL, pathR, year, month, day);
    forall e | e in PdfEffects(outputDir, archiveDir, key, pathL, pathR, year, month, day)
      ensures EmitOrdered(e)
    {
      if e.Emit? {
        assert e == emit;
      }
    }
  }

  /** The document write comes first, and it is the only one. */
  lemma PdfEffectsShape(outputDir: string, archiveDir: string, key: string, pathL: string, pathR: string,
                        year: nat, month: string, day: string)
    ensures PdfEffects(outputDir, archiveDir, key, pathL, pathR, year, month, day)[0]
            == Emit(key, PathJoin(outputDir, key + ".pdf"), [pathL, pathR])
    ensures forall e :: e in PdfEffects(outputDir, archiveDir, key, pathL, pathR, year, month, day) && e.Emit?
                        ==> e == Emit(key, PathJoin(outputDir, key + ".pdf"), [pathL, pathR])
  {
    var dir := ArchiveDir(archiveDir, year, month, day);
    var moves := Moves([pathL, pathR], dir);
    assert forall e :: e in moves ==> e.Move?;
    assert PdfEffects(outputDir, archiveDir, key, pathL, pathR, year, month, day)
           == [Emit(key, PathJoin(outputDir, key + ".pdf"), [pathL, pathR]), MakeDirs(dir)] + moves;
  }

  /** Handling one event keeps every pending path under its own key and side, and orders every document it emits. */
  lemma StepKeepsWellFormed(outputDir: string, archiveDir: string, t: Table, ev: Event)
    requires WellFormed(t)
    ensures WellFormed(Handle(outputDir, archiveDir, t, ev).table)
    ensures forall e :: e in Handle(outputDir, archiveDir, t, ev).effects ==> EmitOrdered(e)
  {
    var path := ev.path;
    var r := Handle(outputDir, archiveDir, t, ev);
    if ev.isDirectory || !HasImageExtension(path) || ParseName(Basename(path)).None? {
      assert r.table == t && r.effects == [];
    } else if ParseDate(ParseName(Basename(path)).value.dateToken).None? {
      BadDateLeavesTable(outputDir, archiveDir, t, path);
      assert r.table == t && r.effects == [];
    } else {
      var n := ParseName(Basename(path)).value;
      var t' := Record(t, n.key, n.side, path);
      RecordKeepsWellFormed(t, n.key, n.side, path);
      if Complete(t'[n.key]) {
        var e := t'[n.key];
        var d := ParseDate(n.dateToken).value;
        assert r.effects == PdfEffects(outputDir, archiveDir, n.key, e[L], e[R], d.year, Pad2(d.month), Pad2(d.day));
        PdfEffectsOrdered(outputDir, archiveDir, n.key, e[L], e[R], d.year, Pad2(d.month), Pad2(d.day));
      } else {
        StepRecords(outputDir, archiveDir, t, path);
      }
    }
  }

  /**
   * Over any sequence of notifications, starting from a table that keeps
   * the invariants (the empty one does), the table keeps them and every
   * document has the left capture of its key as page one and the right
   * capture as page two, whatever the arrival order.
   */
  lemma {:induction false} RunKeepsInvariants(outputDir: string, archiveDir: string, t: Table, events: seq<Event>)
    requires OneSided(t) && WellFormed(t)
    ensures OneSided(Run(outputDir, archiveDir, t, events).0)
    ensures WellFormed(Run(outputDir, archiveDir, t, events).0)
    ensures forall e :: e in Run(outputDir, archiveDir, t, events).1 ==> EmitOrdered(e)
    decreases |events|
  {
    if events != [] {
      var first := Handle(outputDir, archiveDir, t, events[0]);
      HandleKeepsInvariants(outputDir, archiveDir, t, events[0]);
      if !first.outcome.BadDate? {
        RunKeepsInvariants(outputDir, archiveDir, first.table, events[1..]);
        var rest := Run(outputDir, archiveDir, first.table, events[1..]);
        assert Run(outputDir, archiveDir, t, events) == (rest.0, first.effects + rest.1);
      }
    }
  }

  /** One notification keeps the table one-sided and well formed and orders every document it emits. */
  lemma HandleKeepsInvariants(outputDir: string, archiveDir: string, t: Table, ev: Event)
    requires OneSided(t) && WellFormed(t)
    ensures var r := Handle(outputDir, archiveDir, t, ev);
            && OneSided(r.table) && WellFormed(r.table)
            && forall e :: e in r.effects ==> EmitOrdered(e)
  {
    if !ev.isDirectory && HasImageExtension(ev.path) {
      StepKeepsOneSided(outputDir, archiveDir, t, ev.path);
    }
    StepKeepsWellFormed(outputDir, archiveDir, t, ev);
  }


  /**
   * Two captures of one key on opposite sides, arriving in either order
   * while the key is not pending: the first only records, the second emits
   * one document with the left capture first and leaves the table as it was.
   */
  lemma PairInEitherOrder(outputDir: string, archiveDir: string, t: Table, first: string, second: string)
    requires ParseName(Basename(first)).Some? && ParseName(Basename(second)).Some?
    requires ParseName(Basename(first)).value.key == ParseName(Basename(second)).value.key
    requires ParseName(Basename(first)).value.side != ParseName(Basename(second)).value.side
    requires ParseDate(ParseName(Basename(first)).value.dateToken).Some?
    requires ParseName(Basename(first)).value.key !in t
    ensures var key := ParseName(Basename(first)).value.key;
            var s1 := Step(outputDir, archiveDir, t, first);
            var s2 := Step(outputDir, archiveDir, s1.table, second);
            var pages := if ParseName(Basename(first)).value.side == L then [first, second] else [second, first];
            && s1.outcome == Recorded(key) && s1.effects == []
            && s2.outcome == Emitted(key) && s2.table == t
            && s2.effects[0] == Emit(key, PathJoin(outputDir, key + ".pdf"), pages)
  {
    var n1, n2 := ParseName(Basename(first)).value, ParseName(Basename(second)).value;
    SameKeySameDate(Basename(first), Basename(second));
    var d := ParseDate(n1.dateToken).value;
    var s1 := Accept(outputDir, archiveDir, t, first, n1, d);
    assert Step(outputDir, archiveDir, t, first) == s1;
    assert Step(outputDir, archiveDir, s1.table, second) == Accept(outputDir, archiveDir, s1.table, second, n2, d);
    AcceptPair(outputDir, archiveDir, t, first, second, n1, n2, d);
  }

  lemma AcceptPair(outputDir: string, archiveDir: string, t: Table, first: string, second: string, n1: Name, n2: Name, d: Date)
    requires ValidDate(d) && n1.key == n2.key && n1.side != n2.side && n1.key !in t
    ensures var s1 := Accept(outputDir, archiveDir, t, first, n1, d);
            var s2 := Accept(outputDir, archiveDir, s1.table, second, n2, d);
            var pages := if n1.side == L then [first, second] else [second, first];
            && s1.outcome == Recorded(n1.key) && s1.effects == []
            && s2.outcome == Emitted(n1.key) && s2.table == t
            && s2.effects[0] == Emit(n1.key, PathJoin(outputDir, n1.key + ".pdf"), pages)
  {
    var s1 := Accept(outputDir, archiveDir, t, first, n1, d);
    assert s1.table == t[n1.key := map[n1.side := first]];
    var s2 := Accept(outputDir, archiveDir, s1.table, second, n2, d);
    assert s2.table == t[n1.key := map[n1.side := first]][n1.key := map[n1.side := first, n2.side := second]] - {n1.key};
    assert s2.table == t;
  }
}
