/**
 * `App.backfill` (main.py): one pass over a listing of the watched
 * directory. The first loop fills a fresh local table, keyed in order of
 * first appearance (Python dictionaries iterate in insertion order); the
 * second loop hands every key that has both sides to `create_pdf` of a
 * fresh `EyeHandler` and counts it. A date token `strptime` rejects raises
 * out of the first loop, so nothing is emitted at all.
 */
module Backfill {
  import opened Wrappers
  import opened Strings
  import opened Paths
  import opened Dates
  import opened Names
  import opened Pairing
  import opened Handler

  /** An entry of `os.listdir(input_dir)`, with what `os.path.isdir` says of it. */
  datatype Listed = Listed(name: string, isDirectory: bool)

  /** `(path, date)` as the first loop stores it. */
  datatype Found = Found(path: string, date: Date)

  type Slots = map<string, map<Side, Found>>

  /** What the first loop makes of one entry before it touches the table. */
  datatype Sighting = Skip | Undated(token: string) | Sighted(key: string, side: Side, date: Date)

  /**
   * An entry is skipped exactly when it is a directory, lacks an image
   * extension, or its name has fewer than five tokens or no side token at
   * index 3; otherwise its date token decides between a sighting under the
   * name's key and side and an entry whose date raises.
   */
  function Classify(e: Listed): (r: Sighting)
    ensures r.Sighted? ==> ValidDate(r.date)
    ensures r == Skip <==> e.isDirectory || !HasImageExtension(e.name) || |Tokens(e.name)| < 5
                           || (Tokens(e.name)[3] != "L" && Tokens(e.name)[3] != "R")
    ensures r.Undated? ==> && ParseName(e.name).Some? && r.token == ParseName(e.name).value.dateToken
                           && ParseDate(r.token).None?
    ensures r.Sighted? ==> && ParseName(e.name).Some?
                           && r.key == ParseName(e.name).value.key && r.side == ParseName(e.name).value.side
                           && ParseDate(ParseName(e.name).value.dateToken) == Some(r.date)
  {
    if e.isDirectory || !HasImageExtension(e.name) then Skip
    else
      match ParseName(e.name)
      case None => Skip
      case Some(n) =>
        match ParseDate(n.dateToken)
        case None => Undated(n.dateToken)
        case Some(d) => Sighted(n.key, n.side, d)
  }

  /** The local table after (part of) the first loop, or the entry whose date raised. */
  datatype Scan = Scanned(order: seq<string>, slots: Slots) | Failed(name: string)

  predicate NoDuplicates(s: seq<string>)
  {
    forall i, j :: 0 <= i < j < |s| ==> s[i] != s[j]
  }

  /** Every key of the table listed once in `order`, every entry non-empty and every date a calendar date (`ScanOrder` shows `order` is the insertion order). */
  ghost predicate Consistent(order: seq<string>, slots: Slots)
  {
    && NoDuplicates(order)
    && (forall k :: k in slots <==> k in order)
    && (forall k :: k in slots ==> slots[k] != map[])
    && (forall k, s :: k in slots && s in slots[k] ==> ValidDate(slots[k][s].date))
  }

  /** One iteration of the first loop: `pending[key][eye] = (path, date)`. */
  function ScanStep(inputDir: string, scan: Scan, e: Listed): Scan
  {
    Absorb(inputDir, scan, e.name, Classify(e))
  }

  /** What one iteration does with the entry `name` once it has been classified as `c`. */
  function Absorb(inputDir: string, scan: Scan, name: string, c: Sighting): Scan
  {
    match scan
    case Failed(_) => scan
    case Scanned(order, slots) =>
      match c
      case Skip => scan
      case Undated(_) => Failed(name)
      case Sighted(key, side, date) =>
        var entry := if key in slots then slots[key] else map[];
        Scanned(if key in slots then order else order + [key],
                slots[key := entry[side := Found(PathJoin(inputDir, name), date)]])
  }

  /** The first loop over a listing. */
  function ScanAll(inputDir: string, listing: seq<Listed>): (scan: Scan)
    ensures scan.Scanned? ==> Consistent(scan.order, scan.slots)
    decreases |listing|
  {
    if listing == [] then Scanned([], map[])
    else
      var before := ScanAll(inputDir, listing[..|listing| - 1]);
      ScanStepKeepsConsistent(inputDir, before, listing[|listing| - 1]);
      ScanStep(inputDir, before, listing[|listing| - 1])
  }

  lemma ScanStepKeepsConsistent(inputDir: string, scan: Scan, e: Listed)
    requires scan.Scanned? ==> Consistent(scan.order, scan.slots)
    ensures var next := ScanStep(inputDir, scan, e);
            next.Scanned? ==> Consistent(next.order, next.slots)
  {
    AbsorbKeepsConsistent(inputDir, scan, e.name, Classify(e));
  }

  lemma AbsorbKeepsConsistent(inputDir: string, scan: Scan, name: string, c: Sighting)
    requires scan.Scanned? ==> Consistent(scan.order, scan.slots)
    requires c.Sighted? ==> ValidDate(c.date)
    ensures var next := Absorb(inputDir, scan, name, c);
            next.Scanned? ==> Consistent(next.order, next.slots)
  {
    if scan.Scanned? && c.Sighted? {
      var next := Absorb(inputDir, scan, name, c);
      assert next.order == if c.key in scan.slots then scan.order else scan.order + [c.key];
      assert next.slots.Keys == scan.slots.Keys + {c.key};
      forall k | k in next.slots
        ensures next.slots[k] != map[]
      {
        if k == c.key {
          assert c.side in next.slots[k];
        } else {
          assert next.slots[k] == scan.slots[k];
        }
      }
    }
  }

  /** The effects of `create_pdf` for one complete entry: pages left then right, partition from the left capture's date. */
  function PairEffects(outputDir: string, archiveDir: string, key: string, eyes: map<Side, Found>): seq<Effect>
    requires Complete(eyes) && ValidDate(eyes[L].date)
  {
    var left, right := eyes[L], eyes[R];
    PdfEffects(outputDir, archiveDir, key, left.path, right.path, left.date.year, Pad2(left.date.month), Pad2(left.date.day))
  }

  /** The effects of the second loop over the keys `order`. */
  function EmitLog(outputDir: string, archiveDir: string, order: seq<string>, slots: Slots): seq<Effect>
    requires forall k :: k in order ==> k in slots
    requires forall k, s :: k in slots && s in slots[k] ==> ValidDate(slots[k][s].date)
    decreases |order|
  {
    if order == [] then []
    else
      var key := order[|order| - 1];
      EmitLog(outputDir, archiveDir, order[..|order| - 1], slots)
      + (if Complete(slots[key]) then PairEffects(outputDir, archiveDir, key, slots[key]) else [])
  }

  /** `count` after the second loop over the keys `order`. */
  function CountPairs(order: seq<string>, slots: Slots): nat
    requires forall k :: k in order ==> k in slots
    decreases |order|
  {
    if order == [] then 0
    else CountPairs(order[..|order| - 1], slots) + (if Complete(slots[order[|order| - 1]]) then 1 else 0)
  }

  /** How `backfill` ends: the warning for a missing input folder, the raised date error, or the reported count. */
  datatype Report = MissingInputFolder | DateError(name: string) | Processed(count: nat, effects: seq<Effect>)

  function BackfillReport(inputDir: string, outputDir: string, archiveDir: string, listing: seq<Listed>): Report
  {
    if inputDir == [] then MissingInputFolder
    else
      match ScanAll(inputDir, listing)
      case Failed(name) => DateError(name)
      case Scanned(order, slots) => Processed(CountPairs(order, slots), EmitLog(outputDir, archiveDir, order, slots))
  }

  lemma ScanPrefix(inputDir: string, listing: seq<Listed>, i: nat)
    requires i < |listing|
    ensures ScanAll(inputDir, listing[..i + 1]) == ScanStep(inputDir, ScanAll(inputDir, listing[..i]), listing[i])
  {
    assert listing[..i + 1][..i] == listing[..i];
  }

  lemma EmitPrefix(outputDir: string, archiveDir: string, order: seq<string>, slots: Slots, j: nat)
    requires j < |order| && Consistent(order, slots)
    ensures var key := order[j];
            && EmitLog(outputDir, archiveDir, order[..j + 1], slots)
               == EmitLog(outputDir, archiveDir, order[..j], slots)
                  + (if Complete(slots[key]) then PairEffects(outputDir, archiveDir, key, slots[key]) else [])
            && CountPairs(order[..j + 1], slots) == CountPairs(order[..j], slots) + (if Complete(slots[key]) then 1 else 0)
  {
    assert order[..j + 1][..j] == order[..j];
  }

  /** Once the scan has failed, later entries do not matter. */
  lemma {:induction false} FailureSticks(inputDir: string, listing: seq<Listed>, i: nat)
    requires i <= |listing| && ScanAll(inputDir, listing[..i]).Failed?
    ensures ScanAll(inputDir, listing) == ScanAll(inputDir, listing[..i])
    decreases |listing| - i
  {
    if i < |listing| {
      assert listing[..i + 1][..i] == listing[..i];
      FailureSticks(inputDir, listing, i + 1);
    } else {
      assert listing[..i] == listing;
    }
  }

  /** What the first loop makes of each entry of a listing, in order. */
  function Sightings(listing: seq<Listed>): (cs: seq<Sighting>)
    ensures |cs| == |listing|
    decreases |listing|
  {
    if listing == [] then [] else Sightings(listing[..|listing| - 1]) + [Classify(listing[|listing| - 1])]
  }

  /** Index of the first sighting whose date token `strptime` rejects, or -1 when there is none. */
  function FirstUndated(cs: seq<Sighting>): (i: int)
    ensures -1 <= i < |cs|
    ensures i >= 0 ==> cs[i].Undated?
    ensures forall j :: 0 <= j < |cs| && (i < 0 || j < i) ==> !cs[j].Undated?
    decreases |cs|
  {
    if cs == [] then -1
    else
      var first := FirstUndated(cs[..|cs| - 1]);
      if first >= 0 then first
      else if cs[|cs| - 1].Undated? then |cs| - 1
      else -1
  }

  /** The first loop raises exactly when some entry has a bad date, and it raises on the first one. */
  lemma {:induction false} ScanFailsAtFirstUndated(inputDir: string, listing: seq<Listed>)
    ensures ScanAll(inputDir, listing).Failed? <==> FirstUndated(Sightings(listing)) >= 0
    ensures ScanAll(inputDir, listing).Failed? ==> ScanAll(inputDir, listing).name == listing[FirstUndated(Sightings(listing))].name
    decreases |listing|
  {
    if listing != [] {
      var prefix, last := listing[..|listing| - 1], listing[|listing| - 1];
      var cs := Sightings(listing);
      ScanLast(inputDir, listing);
      ScanFailsAtFirstUndated(inputDir, prefix);
      var f := FirstUndated(Sightings(prefix));
      if f >= 0 {
        assert prefix[f] == listing[f];
      }
    }
  }

  /** Index of the first sighting of either capture of `key`, or -1 when there is none. */
  function FirstSighting(cs: seq<Sighting>, key: string): (i: int)
    ensures -1 <= i < |cs|
    ensures i >= 0 ==> cs[i].Sighted? && cs[i].key == key
    ensures forall j :: 0 <= j < |cs| && (i < 0 || j < i) ==> !(cs[j].Sighted? && cs[j].key == key)
    decreases |cs|
  {
    if cs == [] then -1
    else
      var first := FirstSighting(cs[..|cs| - 1], key);
      if first >= 0 then first
      else if cs[|cs| - 1].Sighted? && cs[|cs| - 1].key == key then |cs| - 1
      else -1
  }

  /**
   * After a complete first loop, the table's keys are exactly the keys some
   * entry was read as, listed in the order of their first sighting: the
   * order in which the dictionary inserted them, and so the order in which
   * the second loop visits them.
   */
  lemma {:induction false} ScanOrder(inputDir: string, listing: seq<Listed>)
    requires ScanAll(inputDir, listing).Scanned?
    ensures var order, cs := ScanAll(inputDir, listing).order, Sightings(listing);
            && (forall k :: k in order <==> FirstSighting(cs, k) >= 0)
            && (forall a, b :: 0 <= a < b < |order| ==> FirstSighting(cs, order[a]) < FirstSighting(cs, order[b]))
    decreases |listing|
  {
    if listing != [] {
      var prefix, cs := listing[..|listing| - 1], Sightings(listing);
      ScanLast(inputDir, listing);
      ScanOrder(inputDir, prefix);
      AbsorbOrder(inputDir, ScanAll(inputDir, prefix), listing[|listing| - 1].name, cs[|cs| - 1], Sightings(prefix));
    }
  }

  /** One iteration appends the key it reads when the key is new, and so keeps the table in first-sighting order. */
  lemma AbsorbOrder(inputDir: string, scan: Scan, name: string, c: Sighting, cs: seq<Sighting>)
    requires Absorb(inputDir, scan, name, c).Scanned?
    requires scan.Scanned? ==> && (forall k :: k in scan.order <==> FirstSighting(cs, k) >= 0)
                               && (forall k :: k in scan.order <==> k in scan.slots)
                               && (forall a, b :: 0 <= a < b < |scan.order| ==> FirstSighting(cs, scan.order[a]) < FirstSighting(cs, scan.order[b]))
    ensures var order := Absorb(inputDir, scan, name, c).order;
            && (forall k :: k in order <==> FirstSighting(cs + [c], k) >= 0)
            && (forall a, b :: 0 <= a < b < |order| ==> FirstSighting(cs + [c], order[a]) < FirstSighting(cs + [c], order[b]))
  {
    var order := Absorb(inputDir, scan, name, c).order;
    forall k
      ensures FirstSighting(cs + [c], k) == if FirstSighting(cs, k) >= 0 then FirstSighting(cs, k)
                                            else if c.Sighted? && c.key == k then |cs| else -1
    {
      assert (cs + [c])[..|cs|] == cs;
    }
    if c.Sighted? && c.key !in scan.slots {
      assert order == scan.order + [c.key];
    } else {
      assert order == scan.order;
    }
  }

  /** Index of the last sighting of the `side` capture of `key`, or -1 when there is none. */
  function LastSighting(cs: seq<Sighting>, key: string, side: Side): (i: int)
    ensures -1 <= i < |cs|
    ensures i >= 0 ==> cs[i].Sighted? && cs[i].key == key && cs[i].side == side
    ensures forall j :: i < j < |cs| ==> !(cs[j].Sighted? && cs[j].key == key && cs[j].side == side)
    decreases |cs|
  {
    if cs == [] then -1
    else
      var c := cs[|cs| - 1];
      if c.Sighted? && c.key == key && c.side == side then |cs| - 1
      else LastSighting(cs[..|cs| - 1], key, side)
  }

  /**
   * After a complete first loop, the table holds a side of a key exactly
   * when some entry was read as it, and then it holds the last such entry:
   * a later file of the same key and side replaces an earlier one.
   */
  lemma {:induction false} ScanKeepsLast(inputDir: string, listing: seq<Listed>, key: string, side: Side)
    requires ScanAll(inputDir, listing).Scanned?
    ensures var slots := ScanAll(inputDir, listing).slots;
            var cs := Sightings(listing);
            var i := LastSighting(cs, key, side);
            && (key in slots && side in slots[key] <==> i >= 0)
            && (i >= 0 ==> slots[key][side] == Found(PathJoin(inputDir, listing[i].name), cs[i].date))
    decreases |listing|
  {
    if listing != [] {
      var prefix, last := listing[..|listing| - 1], listing[|listing| - 1];
      var cs := Sightings(listing);
      ScanLast(inputDir, listing);
      AbsorbSlot(inputDir, ScanAll(inputDir, prefix), last.name, cs[|cs| - 1], key, side);
      ScanKeepsLast(inputDir, prefix, key, side);
      var i := LastSighting(cs, key, side);
      if i >= 0 && i < |listing| - 1 {
        assert prefix[i] == listing[i];
      }
    }
  }

  /** One iteration sets the slot it reads and leaves every other slot as it was. */
  lemma AbsorbSlot(inputDir: string, scan: Scan, name: string, c: Sighting, key: string, side: Side)
    requires Absorb(inputDir, scan, name, c).Scanned?
    ensures scan.Scanned?
    ensures var next := Absorb(inputDir, scan, name, c).slots;
            var hit := c.Sighted? && c.key == key && c.side == side;
            && (key in next && side in next[key] <==> hit || (key in scan.slots && side in scan.slots[key]))
            && (hit ==> next[key][side] == Found(PathJoin(inputDir, name), c.date))
            && (!hit && key in scan.slots && side in scan.slots[key] ==> next[key][side] == scan.slots[key][side])
  {
  }

  /** The first loop over a listing is the loop over all but its last entry, followed by one more iteration. */
  lemma ScanLast(inputDir: string, listing: seq<Listed>)
    requires listing != []
    ensures var prefix, cs := listing[..|listing| - 1], Sightings(listing);
            && cs[..|cs| - 1] == Sightings(prefix)
            && ScanAll(inputDir, listing) == Absorb(inputDir, ScanAll(inputDir, prefix), listing[|listing| - 1].name, cs[|cs| - 1])
  {
  }

  lemma {:induction false} SightingsAt(listing: seq<Listed>, i: nat)
    requires i < |listing|
    ensures Sightings(listing)[i] == Classify(listing[i])
    decreases |listing|
  {
    if i < |listing| - 1 {
      SightingsAt(listing[..|listing| - 1], i);
    }
  }

  /** A sighted entry's date is the one written in its key. */
  lemma SightingDate(e: Listed)
    requires Classify(e).Sighted?
    ensures var c := Classify(e);
            |Split(c.key, '_')| >= 2 && ParseDate(Split(c.key, '_')[1]) == Some(c.date)
  {
    KeyRoundTrip(e.name);
  }

  /**
   * Both captures of a complete key carry the same date, so taking the
   * partition from the left capture's date, as the second loop does, is
   * the same as taking it from the right one.
   */
  lemma PairDatesAgree(inputDir: string, listing: seq<Listed>, key: string)
    requires ScanAll(inputDir, listing).Scanned?
    requires key in ScanAll(inputDir, listing).slots && Complete(ScanAll(inputDir, listing).slots[key])
    ensures var eyes := ScanAll(inputDir, listing).slots[key];
            eyes[L].date == eyes[R].date
  {
    var cs := Sightings(listing);
    ScanKeepsLast(inputDir, listing, key, L);
    ScanKeepsLast(inputDir, listing, key, R);
    var i, j := LastSighting(cs, key, L), LastSighting(cs, key, R);
    SightingsAt(listing, i);
    SightingsAt(listing, j);
    SightingDate(listing[i]);
    SightingDate(listing[j]);
  }

  /** The keys whose entry holds both sides. */
  function PairedKeys(order: seq<string>, slots: Slots): set<string>
    requires forall k :: k in order ==> k in slots
  {
    set k | k in order && Complete(slots[k])
  }

  /** The reported count is the number of distinct keys with both sides. */
  lemma {:induction false} CountIsPairedKeys(order: seq<string>, slots: Slots)
    requires NoDuplicates(order) && forall k :: k in order ==> k in slots
    ensures CountPairs(order, slots) == |PairedKeys(order, slots)|
    decreases |order|
  {
    if order != [] {
      var prefix, last := order[..|order| - 1], order[|order| - 1];
      CountIsPairedKeys(prefix, slots);
      assert last !in prefix;
      if Complete(slots[last]) {
        assert PairedKeys(order, slots) == PairedKeys(prefix, slots) + {last};
      } else {
        assert PairedKeys(order, slots) == PairedKeys(prefix, slots);
      }
    }
  }

  /** How many documents among `effects` are written for `key`. */
  function EmitCount(effects: seq<Effect>, key: string): nat
    decreases |effects|
  {
    if effects == [] then 0
    else (if effects[0].Emit? && effects[0].key == key then 1 else 0) + EmitCount(effects[1..], key)
  }

  lemma {:induction false} EmitCountAppend(a: seq<Effect>, b: seq<Effect>, key: string)
    ensures EmitCount(a + b, key) == EmitCount(a, key) + EmitCount(b, key)
    decreases |a|
  {
    if a != [] {
      assert (a + b)[1..] == a[1..] + b;
      EmitCountAppend(a[1..], b, key);
    } else {
      assert a + b == b;
    }
  }

  lemma PairEffectsEmitOnce(outputDir: string, archiveDir: string, k: string, eyes: map<Side, Found>, key: string)
    requires Complete(eyes) && ValidDate(eyes[L].date)
    ensures EmitCount(PairEffects(outputDir, archiveDir, k, eyes), key) == if k == key then 1 else 0
  {
    var left, right := eyes[L], eyes[R];
    var dir := ArchiveDir(archiveDir, left.date.year, Pad2(left.date.month), Pad2(left.date.day));
    var emit := Emit(k, PathJoin(outputDir, k + ".pdf"), [left.path, right.path]);
    var moves := Moves([left.path, right.path], dir);
    assert moves == [Move(left.path, PathJoin(dir, Basename(left.path))), Move(right.path, PathJoin(dir, Basename(right.path)))];
    var rest := [MakeDirs(dir)] + moves;
    assert PairEffects(outputDir, archiveDir, k, eyes) == [emit] + rest;
    assert ([emit] + rest)[1..] == rest;
    NoEmits(rest, key);
  }

  lemma {:induction false} NoEmits(effects: seq<Effect>, key: string)
    requires forall e :: e in effects ==> !e.Emit?
    ensures EmitCount(effects, key) == 0
    decreases |effects|
  {
    if effects != [] {
      assert effects[0] in effects;
      assert forall e :: e in effects[1..] ==> e in effects;
      NoEmits(effects[1..], key);
    }
  }

  /** The second loop writes one document for every key with both sides and none for any other key. */
  lemma {:induction false} EmitLogOncePerPair(outputDir: string, archiveDir: string, order: seq<string>, slots: Slots, key: string)
    requires NoDuplicates(order) && forall k :: k in order ==> k in slots
    requires forall k, s :: k in slots && s in slots[k] ==> ValidDate(slots[k][s].date)
    ensures EmitCount(EmitLog(outputDir, archiveDir, order, slots), key) == if key in order && Complete(slots[key]) then 1 else 0
    decreases |order|
  {
    if order != [] {
      var prefix, last := order[..|order| - 1], order[|order| - 1];
      EmitLogOncePerPair(outputDir, archiveDir, prefix, slots, key);
      var tail := if Complete(slots[last]) then PairEffects(outputDir, archiveDir, last, slots[last]) else [];
      EmitCountAppend(EmitLog(outputDir, archiveDir, prefix, slots), tail, key);
      if Complete(slots[last]) {
        PairEffectsEmitOnce(outputDir, archiveDir, last, slots[last], key);
      }
      assert last !in prefix;
      assert key in order <==> key in prefix || key == last;
    }
  }

  /** The second loop moves only the two captures of a key that has both sides: a single-sided capture stays where it is. */
  lemma {:induction false} EmitLogMovesOnlyPairs(outputDir: string, archiveDir: string, order: seq<string>, slots: Slots)
    requires forall k :: k in order ==> k in slots
    requires forall k, s :: k in slots && s in slots[k] ==> ValidDate(slots[k][s].date)
    ensures forall e :: e in EmitLog(outputDir, archiveDir, order, slots) && e.Move? ==>
              exists k :: k in order && Complete(slots[k]) && (e.source == slots[k][L].path || e.source == slots[k][R].path)
    decreases |order|
  {
    if order != [] {
      var prefix, last := order[..|order| - 1], order[|order| - 1];
      EmitLogMovesOnlyPairs(outputDir, archiveDir, prefix, slots);
      var tail := if Complete(slots[last]) then PairEffects(outputDir, archiveDir, last, slots[last]) else [];
      if Complete(slots[last]) {
        PairEffectsMoves(outputDir, archiveDir, last, slots[last]);
      }
      forall e | e in EmitLog(outputDir, archiveDir, order, slots) && e.Move?
        ensures exists k :: k in order && Complete(slots[k]) && (e.source == slots[k][L].path || e.source == slots[k][R].path)
      {
        if e in tail {
          assert last in order;
        } else {
          var k :| k in prefix && Complete(slots[k]) && (e.source == slots[k][L].path || e.source == slots[k][R].path);
          assert k in order;
        }
      }
    }
  }

  /** `create_pdf` moves exactly the two paths of the entry, the left one first. */
  lemma PairEffectsMoves(outputDir: string, archiveDir: string, k: string, eyes: map<Side, Found>)
    requires Complete(eyes) && ValidDate(eyes[L].date)
    ensures forall e :: e in PairEffects(outputDir, archiveDir, k, eyes) && e.Move? ==> e.source == eyes[L].path || e.source == eyes[R].path
  {
    var left, right := eyes[L], eyes[R];
    var dir := ArchiveDir(archiveDir, left.date.year, Pad2(left.date.month), Pad2(left.date.day));
    var moves := Moves([left.path, right.path], dir);
    assert moves == [Move(left.path, PathJoin(dir, Basename(left.path))), Move(right.path, PathJoin(dir, Basename(right.path)))];
    assert PairEffects(outputDir, archiveDir, k, eyes) == [Emit(k, PathJoin(outputDir, k + ".pdf"), [left.path, right.path]), MakeDirs(dir)] + moves;
  }

  /**
   * A backfill that gets past the first loop writes exactly one document per
   * key that has both sides in the listing, reports that many pairs, and
   * moves no capture of a key that has only one side.
   */
  lemma BackfillProcessesEveryPair(inputDir: string, outputDir: string, archiveDir: string, listing: seq<Listed>, key: string)
    requires inputDir != [] && ScanAll(inputDir, listing).Scanned?
    ensures var scan := ScanAll(inputDir, listing);
            var report := BackfillReport(inputDir, outputDir, archiveDir, listing);
            && report.Processed?
            && report.count == |PairedKeys(scan.order, scan.slots)|
            && EmitCount(report.effects, key) == (if key in scan.slots && Complete(scan.slots[key]) then 1 else 0)
            && forall e :: e in report.effects && e.Move? ==>
                 exists k :: k in scan.slots && Complete(scan.slots[k])
                             && (e.source == scan.slots[k][L].path || e.source == scan.slots[k][R].path)
  {
    var scan := ScanAll(inputDir, listing);
    CountIsPairedKeys(scan.order, scan.slots);
    EmitLogOncePerPair(outputDir, archiveDir, scan.order, scan.slots, key);
    EmitLogMovesOnlyPairs(outputDir, archiveDir, scan.order, scan.slots);
  }

  /** The first loop of `App.backfill` (main.py): it stops at the first date `strptime` rejects. */
  method ScanListing(inputDir: string, listing: seq<Listed>) returns (scan: Scan)
    ensures scan == ScanAll(inputDir, listing)
  {
    var order: seq<string> := [];
    var slots: Slots := map[];
    for i := 0 to |listing|
      invariant ScanAll(inputDir, listing[..i]) == Scanned(order, slots)
    {
      ScanPrefix(inputDir, listing, i);
      var path := PathJoin(inputDir, listing[i].name);
      var c := Classify(listing[i]);
      assert ScanAll(inputDir, listing[..i + 1]) == Absorb(inputDir, Scanned(order, slots), listing[i].name, c);
      match c
      case Skip =>
      case Undated(_) =>
        FailureSticks(inputDir, listing, i + 1);
        return Failed(listing[i].name);
      case Sighted(key, eye, date) =>
        var entry := if key in slots then slots[key] else map[];
        if key !in slots {
          order := order + [key];
        }
        slots := slots[key := entry[eye := Found(path, date)]];
    }
    assert listing[..|listing|] == listing;
    scan := Scanned(order, slots);
  }

  /**
   * `App.backfill`. The local table and the handler are both fresh, so a
   * backfill cannot disturb the table of a live handler.
   */
  method Backfill(inputDir: string, outputDir: string, archiveDir: string, listing: seq<Listed>) returns (report: Report)
    ensures report == BackfillReport(inputDir, outputDir, archiveDir, listing)
  {
    if inputDir == [] {
      return MissingInputFolder;
    }
    var scan := ScanListing(inputDir, listing);
    if scan.Failed? {
      return DateError(scan.name);
    }
    var order, slots := scan.order, scan.slots;
    var handler := new EyeHandler(outputDir, archiveDir);
    var count := 0;
    for j := 0 to |order|
      invariant handler.pending == map[]
      invariant handler.outputDir == outputDir && handler.archiveDir == archiveDir
      invariant handler.effects == EmitLog(outputDir, archiveDir, order[..j], slots)
      invariant count == CountPairs(order[..j], slots)
    {
      EmitPrefix(outputDir, archiveDir, order, slots, j);
      var key := order[j];
      var eyes := slots[key];
      if L in eyes && R in eyes {
        var left, right := eyes[L], eyes[R];
        handler.pending := handler.pending[key := map[L := left.path, R := right.path]];
        ghost var before := handler.effects;
        handler.CreatePdf(key, left.date.year, Pad2(left.date.month), Pad2(left.date.day));
        assert handler.effects == before + PairEffects(outputDir, archiveDir, key, eyes);
        count := count + 1;
      }
    }
    assert order[..|order|] == order;
    return Processed(count, handler.effects);
  }
}
