/** Store-and-forward delivery of scan reports (internal/agent/reporter/spool.go and
    `run` in cmd/agent/main.go).

    The disk is a map from names in the spool directory to nodes.  Every call runs in an
    environment `IO` that decides which operations fail, and on a power supply: it is
    steady, or lasts for so many operations, and from then on nothing the agent does has
    any effect until `Reboot`.  A write caught by the power loss leaves a cut-short file.
    Ghost fields say what became of every report. */
module Spool {
  import opened Prelude
  import opened Lex
  import opened SpoolNames

  datatype Report = Report(timestamp: int, scanID: string, body: string)

  datatype Node = Folder | File(content: string)

  /** JSON, as a library: what was written can be read back. */
  datatype Codec = Codec(encode: Report -> string, decode: string -> Option<Report>)
  {
    ghost predicate RoundTrips()
    {
      forall r :: decode(encode(r)) == Some(r)
    }
  }

  /** What the disk and the server do during one call, by file name. */
  datatype IO = IO(listable: bool, readable: set<string>, removable: set<string>, accepted: set<string>,
                   writable: bool, renamable: bool)

  /** Why a replay removes a file. */
  datatype Fate = Delivered | Unreadable | Corrupt

  /** The agent's power: steady, or lasting for so many operations. */
  datatype Power = Steady | Left(operations: nat)
  {
    predicate On()
    {
      Steady? || operations > 0
    }

    function Spent(): Power
    {
      if Steady? || operations == 0 then this else Left(operations - 1)
    }

    /** From this supply to `later`, at most n operations were paid for. */
    predicate Uses(n: nat, later: Power)
    {
      Steady? == later.Steady? && (Left? ==> later.operations + n >= operations)
    }
  }

  datatype Verdict = Skipped | Sent | Refused

  /** The reports `ReplaySpool` would deliver from `names`, in order. */
  ghost function Deliverable(dir: map<string, Node>, names: seq<string>, io: IO, codec: Codec): seq<Report>
  {
    if names == [] then [] else
      Deliverable(dir, names[..|names| - 1], io, codec) + Content(dir, names[|names| - 1], io, codec)
  }

  ghost function Content(dir: map<string, Node>, name: string, io: IO, codec: Codec): seq<Report>
  {
    if Usable(dir, name, io, codec) then [codec.decode(dir[name].content).value] else []
  }

  lemma DeliverableStep(dir: map<string, Node>, names: seq<string>, i: nat, io: IO, codec: Codec)
    requires i < |names|
    ensures Deliverable(dir, names[..i + 1], io, codec) ==
      Deliverable(dir, names[..i], io, codec) + Content(dir, names[i], io, codec)
  {
    assert names[..i + 1][..i] == names[..i];
  }

  /** The file is there, can be read, and parses. */
  predicate Usable(dir: map<string, Node>, name: string, io: IO, codec: Codec)
  {
    name in dir && dir[name].File? && name in io.readable && codec.decode(dir[name].content).Some?
  }

  lemma ValuesRemove(m: map<string, Report>, name: string)
    ensures forall r :: r in m.Values && (name in m ==> r != m[name]) ==> r in (m - {name}).Values
  {
    forall r | r in m.Values && (name in m ==> r != m[name]) ensures r in (m - {name}).Values {
      var n :| n in m && m[n] == r;
      assert n in m - {name} && (m - {name})[n] == r;
    }
  }

  lemma ValuesUpdate(m: map<string, Report>, name: string, r: Report)
    ensures forall q :: q in m.Values && (name in m ==> q != m[name]) ==> q in m[name := r].Values
    ensures r in m[name := r].Values
  {
    assert name in m[name := r];
    forall q | q in m.Values && (name in m ==> q != m[name]) ensures q in m[name := r].Values {
      var n :| n in m && m[n] == q;
      assert n in m[name := r] && m[name := r][n] == q;
    }
  }

  /** Held reports are on disk, whole; and the directory holds nothing but held reports,
      files this agent did not write, and temporary files. */
  ghost predicate Whole(dir: map<string, Node>, held: map<string, Report>, foreign: set<string>, temps: set<string>, codec: Codec)
  {
    && (forall n :: n in held ==> n in dir && dir[n] == File(codec.encode(held[n])))
    && (forall n :: n in dir ==> n in held || n in foreign || n in temps)
    && held.Keys !! temps
  }

  /** Held reports carry the name made from their time and id; temporary files are never
      listed.  With `Whole`: a cut-short file is never listed. */
  ghost predicate WellNamed(held: map<string, Report>, temps: set<string>)
  {
    && (forall n :: n in held ==> IsInt64(held[n].timestamp) && n == FileName(held[n].timestamp, held[n].scanID))
    && (forall n :: n in temps ==> !IsSpoolName(n))
  }

  /** Every listed file is foreign, or a complete report that reads back. */
  lemma ListedFilesAreComplete(dir: map<string, Node>, held: map<string, Report>, foreign: set<string>, temps: set<string>,
                               codec: Codec, name: string)
    requires codec.RoundTrips() && Whole(dir, held, foreign, temps, codec) && WellNamed(held, temps)
    requires name in dir && IsSpoolName(name) && name !in foreign
    ensures name in held && dir[name].File? && codec.decode(dir[name].content) == Some(held[name])
  {
  }

  /** The disk, and what became of every report. */
  datatype Snap = Snap(dir: map<string, Node>, held: map<string, Report>, acked: seq<Report>, unreadable: set<Report>,
                       evicted: set<Report>, replaced: set<Report>, lost: set<Report>)

  /** A held report goes only if the server has it or its file could not be read. */
  ghost predicate OnlySafeLosses(a: Snap, b: Snap, io: IO)
  {
    && a.acked <= b.acked && a.unreadable <= b.unreadable
    && (forall n :: n in b.held ==> n in a.held && b.held[n] == a.held[n])
    && (forall n :: n in a.held && n !in b.held ==> if n in io.readable then a.held[n] in b.acked else a.held[n] in b.unreadable)
    && (forall r :: r in b.unreadable ==> r in a.unreadable || r in Unread(a.held, io))
  }

  ghost function Unread(held: map<string, Report>, io: IO): set<Report>
  {
    set n | n in held && n !in io.readable :: held[n]
  }

  lemma OnlySafeLossesCompose(a: Snap, b: Snap, c: Snap, io: IO)
    requires OnlySafeLosses(a, b, io) && OnlySafeLosses(b, c, io)
    ensures OnlySafeLosses(a, c, io)
  {
    forall n | n in a.held && n !in c.held
      ensures if n in io.readable then a.held[n] in c.acked else a.held[n] in c.unreadable
    {
      if n !in b.held && n in io.readable { assert b.acked <= c.acked; }
    }
  }

  /** What one file does to the acknowledgements. */
  ghost predicate SentOne(a: Snap, b: Snap, name: string, verdict: Verdict, io: IO, codec: Codec)
  {
    && (verdict.Skipped? ==> !Usable(a.dir, name, io, codec))
    && (verdict.Sent? ==> Usable(a.dir, name, io, codec) && name in io.accepted)
    && b.acked == a.acked + (if verdict.Sent? then Content(a.dir, name, io, codec) else [])
  }

  /** One file handled to the end. */
  ghost predicate Handled(a: Snap, b: Snap, name: string, verdict: Verdict, io: IO, codec: Codec)
  {
    && verdict == (if !Usable(a.dir, name, io, codec) then Skipped else if name in io.accepted then Sent else Refused)
    && b.dir == (if verdict.Refused? || name !in io.removable then a.dir else a.dir - {name})
  }

  /** Exactly the usable files among `done`, all of them accepted, were acknowledged, in
      order. */
  ghost predicate SentInOrder(a: Snap, b: Snap, done: seq<string>, io: IO, codec: Codec)
  {
    && (forall n :: n in done && Usable(a.dir, n, io, codec) ==> n in io.accepted)
    && b.acked == a.acked + Deliverable(a.dir, done, io, codec)
  }

  /** Of `done` everything is gone that can be deleted. */
  ghost predicate Cleared(a: map<string, Node>, b: map<string, Node>, done: seq<string>, io: IO)
  {
    && (forall n :: n in b <==> n in a && !(n in done && n in io.removable))
    && (forall n :: n in b ==> b[n] == a[n])
  }

  ghost predicate Within(b: map<string, Node>, a: map<string, Node>)
  {
    forall n :: n in b ==> n in a && b[n] == a[n]
  }

  lemma SentStep(a: Snap, b: Snap, c: Snap, names: seq<string>, i: nat, verdict: Verdict, io: IO, codec: Codec)
    requires i < |names| && names[i] in b.dir && Within(b.dir, a.dir)
    requires SentInOrder(a, b, names[..i], io, codec) && SentOne(b, c, names[i], verdict, io, codec) && !verdict.Refused?
    ensures SentInOrder(a, c, names[..i + 1], io, codec)
  {
    assert names[..i + 1] == names[..i] + [names[i]];
    DeliverableStep(a.dir, names, i, io, codec);
    assert Content(b.dir, names[i], io, codec) == Content(a.dir, names[i], io, codec);
  }

  lemma ClearedStep(a: map<string, Node>, b: Snap, c: Snap, names: seq<string>, i: nat, verdict: Verdict, io: IO, codec: Codec)
    requires i < |names| && names[i] in b.dir
    requires Cleared(a, b.dir, names[..i], io) && Handled(b, c, names[i], verdict, io, codec) && !verdict.Refused?
    ensures Cleared(a, c.dir, names[..i + 1], io)
  {
    assert names[..i + 1] == names[..i] + [names[i]];
  }

  /** q is what an accepted, usable file says. */
  ghost predicate FromFile(q: Report, dir: map<string, Node>, io: IO, codec: Codec)
  {
    exists n :: Usable(dir, n, io, codec) && n in io.accepted && codec.decode(dir[n].content) == Some(q)
  }

  lemma {:induction false} DeliverableFromFiles(dir: map<string, Node>, names: seq<string>, io: IO, codec: Codec, q: Report)
    requires forall n :: n in names && Usable(dir, n, io, codec) ==> n in io.accepted
    requires q in Deliverable(dir, names, io, codec)
    ensures FromFile(q, dir, io, codec)
  {
    var before, last := names[..|names| - 1], names[|names| - 1];
    if q in Deliverable(dir, before, io, codec) {
      DeliverableFromFiles(dir, before, io, codec, q);
    } else {
      assert q in Content(dir, last, io, codec);
      assert Usable(dir, last, io, codec) && last in names;
    }
  }

  /** Nothing is acknowledged in a replay but what accepted files say. */
  lemma AcksHaveFiles(a: Snap, b: Snap, done: seq<string>, io: IO, codec: Codec)
    requires SentInOrder(a, b, done, io, codec)
    ensures forall q :: q in b.acked ==> q in a.acked || FromFile(q, a.dir, io, codec)
  {
    forall q | q in b.acked && q !in a.acked ensures FromFile(q, a.dir, io, codec) {
      DeliverableFromFiles(a.dir, done, io, codec, q);
    }
  }

  /** How many of `n` files must go so that one more fits under `max`, and no more. */
  function Excess(n: nat, max: int): (k: nat)
    ensures 0 < max ==> n - k < max
    ensures k > 0 ==> 0 < max <= n - k + 1
  {
    if max <= 0 || n < max then 0 else n - max + 1
  }

  ghost predicate RemovedExactly(a: map<string, Node>, b: map<string, Node>, gone: seq<string>)
  {
    && (forall n :: n in b <==> n in a && n !in gone)
    && (forall n :: n in b ==> b[n] == a[n])
  }

  lemma RemovedStep(a: map<string, Node>, b: map<string, Node>, c: map<string, Node>, names: seq<string>, k: nat)
    requires k < |names| && c == b - {names[k]}
    ensures RemovedExactly(a, b, names[..k]) ==> RemovedExactly(a, c, names[..k + 1])
  {
    assert names[..k + 1] == names[..k] + [names[k]];
  }

  /** r was held under one of the first `excess` names. */
  ghost predicate HeldUnder(r: Report, held: map<string, Report>, names: seq<string>, excess: nat)
  {
    exists i :: 0 <= i < excess && i < |names| && names[i] in held && held[names[i]] == r
  }

  /** Held reports go only by eviction, and only the `excess` oldest do. */
  ghost predicate EvictsOnly(a: Snap, b: Snap, names: seq<string>, excess: nat)
  {
    && excess <= |names| && a.evicted <= b.evicted
    && (forall n :: n in b.held ==> n in a.held && b.held[n] == a.held[n])
    && (forall n :: n in a.held && n !in b.held ==> n in names[..excess] && a.held[n] in b.evicted)
    && (forall n :: n in b.dir ==> n in a.dir && b.dir[n] == a.dir[n])
    && (forall r :: r in b.evicted ==> r in a.evicted || HeldUnder(r, a.held, names, excess))
  }

  /** `k` of the names have been dealt with that way, and nothing else has. */
  ghost predicate EvictedSoFar(a: Snap, b: Snap, names: seq<string>, k: nat, excess: nat)
  {
    k <= excess && EvictsOnly(a, b, names, excess) && RemovedExactly(a.dir, b.dir, names[..k])
  }

  lemma EvictStart(a: Snap, names: seq<string>, excess: nat)
    requires excess <= |names|
    ensures EvictedSoFar(a, a, names, 0, excess)
  {
    assert names[..0] == [];
  }

  lemma EvictStep(a: Snap, b: Snap, c: Snap, names: seq<string>, k: nat, excess: nat, removed: bool)
    requires EvictedSoFar(a, b, names, k, excess) && k < excess
    requires c.dir == (if removed then b.dir - {names[k]} else b.dir) && c.held == (if removed then b.held - {names[k]} else b.held)
    requires c.evicted == b.evicted + Vanishing(removed, names[k], b.held)
    ensures EvictedSoFar(a, c, names, if removed then k + 1 else k, excess)
  {
    if removed {
      assert names[k] == names[..excess][k];
      if names[k] in b.held { assert HeldUnder(b.held[names[k]], a.held, names, excess); }
      RemovedStep(a.dir, b.dir, c.dir, names, k);
    }
  }

  function Listed(dir: map<string, Node>): seq<string>
  {
    SortedNames(SpoolNamesIn(dir))
  }

  function SpoolNamesIn(dir: map<string, Node>): set<string>
  {
    set name | name in dir && dir[name].File? && IsSpoolName(name)
  }

  /** Two reports get the same file name. */
  predicate SameName(q: Report, r: Report)
  {
    q.timestamp == r.timestamp && Sanitized(q.scanID) == Sanitized(r.scanID)
  }

  /** Spooling `r` lets held reports go only by eviction or, under the same name, by
      replacement with `r`. */
  ghost predicate OnlyMakesRoom(held: map<string, Report>, evicted: set<Report>, replaced: set<Report>,
                                held': map<string, Report>, evicted': set<Report>, replaced': set<Report>, r: Report)
  {
    && evicted <= evicted' && replaced <= replaced'
    && (forall n :: n in held && n !in held' ==> held[n] in evicted')
    && (forall n :: n in held && n in held' ==>
          held'[n] == held[n] || (held'[n] == r && (held[n] in replaced' || held[n] in evicted')))
    && (forall n :: n in held' && n !in held ==> held'[n] == r)
    && (forall q :: q in evicted' ==> q in evicted || q in held.Values)
    && (forall q :: q in replaced' ==> q in replaced || (q in held.Values && SameName(q, r)))
  }

  lemma RoomByEviction(a: Snap, b: Snap, e: set<Report>, e': set<Report>, names: seq<string>, excess: nat,
                       replaced: set<Report>, r: Report)
    requires EvictsOnly(a, b, names, excess) && e == a.evicted && e' == b.evicted
    ensures OnlyMakesRoom(a.held, e, replaced, b.held, e', replaced, r)
  {
  }

  /** `r` takes the place of whatever was held under its name. */
  ghost predicate Replaces(held: map<string, Report>, replaced: set<Report>, held': map<string, Report>,
                           replaced': set<Report>, name: string, r: Report)
  {
    && held' == held[name := r]
    && replaced' == replaced + Vanishing(true, name, held)
    && (name in held ==> SameName(held[name], r))
  }

  lemma RoomByReplacement(held: map<string, Report>, e: set<Report>, replaced: set<Report>,
                          held1: map<string, Report>, e': set<Report>,
                          held2: map<string, Report>, replaced': set<Report>, name: string, r: Report)
    requires OnlyMakesRoom(held, e, replaced, held1, e', replaced, r)
    requires forall n :: n in held1 ==> n in held && held1[n] == held[n]
    requires Replaces(held1, replaced, held2, replaced', name, r)
    ensures OnlyMakesRoom(held, e, replaced, held2, e', replaced', r)
  {
    if name in held1 { assert name in held && held[name] in held.Values; }
  }

  /** The report that goes if `name` goes. */
  ghost function Vanishing(yes: bool, name: string, held: map<string, Report>): set<Report>
  {
    if yes && name in held then {held[name]} else {}
  }

  lemma TempIsNotHeld(held: map<string, Report>, temps: set<string>, tmp: string)
    requires WellNamed(held, temps) && !IsSpoolName(tmp)
    ensures tmp !in held
  {
    if tmp in held { FileNamesAreListed(held[tmp].timestamp, held[tmp].scanID); }
  }

  lemma ReplacedSameName(held: map<string, Report>, temps: set<string>, r: Report, name: string)
    requires WellNamed(held, temps) && IsInt64(r.timestamp) && name == FileName(r.timestamp, r.scanID)
    ensures name in held ==> SameName(held[name], r)
  {
    if name in held { FileNameInjective(held[name].timestamp, held[name].scanID, r.timestamp, r.scanID); }
  }

  lemma SuffixMembers(names: seq<string>, k: nat)
    requires k <= |names| && forall i, j :: 0 <= i < j < |names| ==> names[i] != names[j]
    ensures forall n :: n in names[k..] <==> n in names && n !in names[..k]
  {
    assert names == names[..k] + names[k..];
  }

  lemma NamesAfterRemoval(a: map<string, Node>, b: map<string, Node>, gone: seq<string>, n: string)
    requires RemovedExactly(a, b, gone)
    ensures n in SpoolNamesIn(b) <==> n in SpoolNamesIn(a) && n !in gone
  {
  }

  lemma NamesAfterRename(a: map<string, Node>, b: map<string, Node>, tmp: string, name: string, node: Node, n: string)
    requires b == a[tmp := node][name := node] - {tmp} && node.File?
    requires !IsSpoolName(tmp) && IsSpoolName(name)
    ensures n in SpoolNamesIn(b) <==> n in SpoolNamesIn(a) || n == name
  {
  }

  lemma ListingKept(a: map<string, Node>, b: map<string, Node>, tmp: string, name: string, node: Node)
    requires b - {tmp} == a - {tmp} || b == a[tmp := node][name := node] - {tmp}
    requires node.File? && !IsSpoolName(tmp) && IsSpoolName(name)
    ensures SpoolNamesIn(a) <= SpoolNamesIn(b)
  {
    forall n | n in SpoolNamesIn(a) ensures n in SpoolNamesIn(b) {
      if b - {tmp} == a - {tmp} {
        assert n in a - {tmp} && (a - {tmp})[n] == a[n];
        assert n in b - {tmp} && (b - {tmp})[n] == b[n];
      } else {
        NamesAfterRename(a, b, tmp, name, node, n);
      }
    }
  }

  lemma ListingAfterSpool(dir0: map<string, Node>, dir1: map<string, Node>, dir3: map<string, Node>,
                          names: seq<string>, k: nat, tmp: string, name: string, node: Node)
    requires names == Listed(dir0) && k <= |names| && RemovedExactly(dir0, dir1, names[..k])
    requires dir3 == dir1[tmp := node][name := node] - {tmp} && node.File?
    requires !IsSpoolName(tmp) && IsSpoolName(name)
    ensures forall n :: n in Listed(dir3) <==> n in names[k..] || n == name
  {
    SuffixMembers(names, k);
    forall n ensures n in Listed(dir3) <==> n in names[k..] || n == name {
      NamesAfterRemoval(dir0, dir1, names[..k], n);
      NamesAfterRename(dir1, dir3, tmp, name, node, n);
    }
  }

  lemma ListingFits(listing: seq<string>, kept: seq<string>, name: string)
    requires forall i, j :: 0 <= i < j < |listing| ==> listing[i] != listing[j]
    requires forall n :: n in listing <==> n in kept || n == name
    ensures |listing| <= |kept| + 1
  {
    SetOfSeqSize(kept + [name]);
    SubsetSize(set n | n in listing, set n | n in kept + [name]);
    DistinctSize(listing);
  }

  /** What spooling did to the listing, `k` files evicted, the oldest: none unless the spool
      was full, and then no more than make room for one; all of those, so that the newest
      `max - 1` stay, unless one could not be removed.  Afterwards the rest and the new name
      are listed, which is at most `max` names. */
  ghost predicate SpooledAsMeant(names: seq<string>, names': seq<string>, k: nat, path: Option<string>, name: string,
                                 max: int, io: IO, dirOk: bool)
  {
    && (path.Some? <==> dirOk && io.writable && io.renamable)
    && k <= |names| && (k > 0 ==> 0 < max <= |names| - k + 1)
    && (dirOk && (max <= 0 || (io.listable && forall n :: n in names ==> n in io.removable)) ==>
          |names| - k == if 0 < max <= |names| then max - 1 else |names|)
    && (path.Some? ==> forall n :: n in names' <==> n in names[k..] || n == name)
    && (path.Some? && 1 <= max && |names| - k < max ==> |names'| <= max)
  }

  lemma SpoolingWorked(dir0: map<string, Node>, dir1: map<string, Node>, dir3: map<string, Node>,
                       names: seq<string>, k: nat, name: string, node: Node, max: int, io: IO)
    requires names == Listed(dir0) && k <= Excess(|names|, max) && RemovedExactly(dir0, dir1, names[..k])
    requires dir3 == dir1[name + ".tmp" := node][name := node] - {name + ".tmp"} && node.File?
    requires !IsSpoolName(name + ".tmp") && IsSpoolName(name)
    requires io.writable && io.renamable
    requires (max <= 0 || (io.listable && forall n :: n in names ==> n in io.removable)) ==> k == Excess(|names|, max)
    ensures SpooledAsMeant(names, Listed(dir3), k, Some(name), name, max, io, true)
  {
    ListingAfterSpool(dir0, dir1, dir3, names, k, name + ".tmp", name, node);
    ListingFits(Listed(dir3), names[k..], name);
  }

  /** One run and everything that can go wrong in it. */
  datatype Cycle = Cycle(power: Power, replay: IO, scan: Option<Report>, accept: bool,
                         max: int, spool: IO, dirOk: bool, cut: Option<nat>)

  function ScanOf(c: Cycle): set<Report>
  {
    if c.scan.Some? then {c.scan.value} else {}
  }

  lemma NoScan(c: Cycle, completed: set<Report>)
    requires c.scan.None?
    ensures completed == completed + ScanOf(c)
  {
  }

  // ---------------------------------------------------------------------
  // Why a report is where it is.

  /** The spool could not be written, or the power went. */
  predicate Failing(c: Cycle, out: bool)
  {
    out || !c.dirOk || !c.spool.writable || !c.spool.renamable
  }

  function NameOf(r: Report): string
  {
    if IsInt64(r.timestamp) then FileName(r.timestamp, r.scanID) else ""
  }

  /** As many files were listed as the cap allows. */
  ghost predicate Full(dir: map<string, Node>, max: int)
  {
    0 < max <= |Listed(dir)|
  }

  /** The listed names after `name` that are there before and after. */
  ghost function Newer(name: string, a: map<string, Node>, b: map<string, Node>): set<string>
  {
    set n | n in SpoolNamesIn(a) && n in SpoolNamesIn(b) && n != name && Leq(name, n)
  }

  /** q was evicted from a full spool, and all but one of the `max` files it may hold are
      newer ones that stayed. */
  ghost predicate WasOldest(q: Report, a: map<string, Node>, b: map<string, Node>, max: int)
  {
    Full(a, max) && |Newer(NameOf(q), a, b)| >= max - 1
  }

  /** Whatever eviction took was the oldest, and went because the spool was full. */
  ghost predicate OldestWent(evicted: set<Report>, evicted': set<Report>, a: map<string, Node>, b: map<string, Node>, max: int)
  {
    forall q :: q in evicted' ==> q in evicted || WasOldest(q, a, b, max)
  }

  lemma WasOldestWider(q: Report, a: map<string, Node>, b: map<string, Node>, a': map<string, Node>, b': map<string, Node>, max: int)
    requires WasOldest(q, a, b, max) && SpoolNamesIn(a) <= SpoolNamesIn(a') && SpoolNamesIn(b) <= SpoolNamesIn(b')
    ensures WasOldest(q, a', b', max)
  {
    SubsetSize(Newer(NameOf(q), a, b), Newer(NameOf(q), a', b'));
    SubsetSize(SpoolNamesIn(a), SpoolNamesIn(a'));
  }

  lemma OldestStillWent(evicted: set<Report>, evicted': set<Report>, a: map<string, Node>, b: map<string, Node>, c: map<string, Node>,
                        max: int)
    requires OldestWent(evicted, evicted', a, b, max) && SpoolNamesIn(b) <= SpoolNamesIn(c)
    ensures OldestWent(evicted, evicted', a, c, max)
  {
    forall q | q in evicted' && q !in evicted ensures WasOldest(q, a, c, max) { WasOldestWider(q, a, b, a, c, max); }
  }

  lemma LaterStays(a: map<string, Node>, b: map<string, Node>, names: seq<string>, k: nat, i: nat, j: nat)
    requires names == Listed(a) && k <= j && i < j < |names| && RemovedExactly(a, b, names[..k])
    ensures names[j] in Newer(names[i], a, b)
  {
    assert names[j] in names;
    assert names[j] !in names[..k];
    NamesAfterRemoval(a, b, names[..k], names[j]);
  }

  lemma StaysInListing(a: map<string, Node>, b: map<string, Node>, names: seq<string>, k: nat, i: nat, excess: nat)
    requires names == Listed(a) && k <= excess <= |names| && i < excess && RemovedExactly(a, b, names[..k])
    ensures |Newer(names[i], a, b)| >= |names| - excess
  {
    var rest := names[excess..];
    var stay := set n | n in rest;
    forall j | excess <= j < |names| ensures names[j] in Newer(names[i], a, b) { LaterStays(a, b, names, k, i, j); }
    DistinctSize(rest);
    SubsetSize(stay, Newer(names[i], a, b));
  }

  lemma EvictedWasOldest(a: Snap, b: Snap, names: seq<string>, k: nat, max: int, q: Report)
    requires names == Listed(a.dir) && k <= Excess(|names|, max) && RemovedExactly(a.dir, b.dir, names[..k])
    requires HeldUnder(q, a.held, names, Excess(|names|, max))
    requires forall n :: n in a.held ==> n == NameOf(a.held[n])
    ensures WasOldest(q, a.dir, b.dir, max)
  {
    var excess := Excess(|names|, max);
    var i :| 0 <= i < excess && i < |names| && names[i] in a.held && a.held[names[i]] == q;
    StaysInListing(a.dir, b.dir, names, k, i, excess);
    assert NameOf(q) == names[i];
  }

  lemma OldestAreEvicted(a: Snap, b: Snap, names: seq<string>, k: nat, max: int, temps: set<string>)
    requires EvictsOnly(a, b, names, Excess(|names|, max)) && WellNamed(a.held, temps)
    requires names == Listed(a.dir) && k <= Excess(|names|, max) && RemovedExactly(a.dir, b.dir, names[..k])
    ensures OldestWent(a.evicted, b.evicted, a.dir, b.dir, max)
  {
    forall q | q in b.evicted && q !in a.evicted ensures WasOldest(q, a.dir, b.dir, max) {
      EvictedWasOldest(a, b, names, k, max, q);
    }
  }

  /** Whatever one run changes in the account has its reason in that run: a report is
      acknowledged only if the server took it, from the scan or from a file that was there;
      the run's own report is lost only if spooling failed; a held report is replaced only
      by one of its name, evicted only from a full spool with newer ones staying, and
      unreadable only if its file was. */
  ghost predicate Explained(a: Snap, b: Snap, c: Cycle, out: bool, codec: Codec)
  {
    && (forall q :: q in b.acked ==> q in a.acked || (c.scan == Some(q) && c.accept) || FromFile(q, a.dir, c.replay, codec))
    && (forall q :: q in b.lost ==> q in a.lost || (c.scan == Some(q) && Failing(c, out)))
    && (forall q :: q in b.replaced ==> q in a.replaced || (q in a.held.Values && c.scan.Some? && SameName(q, c.scan.value)))
    && (forall q :: q in b.evicted ==> q in a.evicted || (q in a.held.Values && c.scan.Some? && WasOldest(q, a.dir, b.dir, c.max)))
    && (forall q :: q in b.unreadable ==> q in a.unreadable || (q in a.held.Values && NameOf(q) !in c.replay.readable))
    && (forall q :: q in b.held.Values ==> q in a.held.Values || c.scan == Some(q))
  }

  /** What one run did: whether the new report was delivered, whether power went, how many
      files the replay dealt with and what was left then, and how many files were evicted. */
  datatype Course = Course(delivered: bool, out: bool, stop: nat, middle: Snap, k: nat)

  /** With power to the end, the replay did what it is for. */
  ghost predicate ReplayedAsMeant(a: Snap, b: Snap, stop: nat, io: IO, codec: Codec)
  {
    var names := if io.listable then Listed(a.dir) else [];
    && stop <= |names|
    && SentInOrder(a, b, names[..stop], io, codec) && Cleared(a.dir, b.dir, names[..stop], io)
    && (stop < |names| ==> Usable(a.dir, names[stop], io, codec) && names[stop] !in io.accepted)
  }

  /** With power to the end, the new report was sent, or else spooled. */
  ghost predicate SentOrSpooled(a: Snap, b: Snap, r: Report, c: Cycle, delivered: bool, k: nat)
  {
    && delivered == c.accept
    && b.acked == a.acked + (if delivered then [r] else [])
    && (delivered ==> b.dir == a.dir && b.held == a.held)
    && (!delivered ==>
          SpooledAsMeant(Listed(a.dir), Listed(b.dir), k, if Failing(c, false) then None else Some(NameOf(r)), NameOf(r),
                         c.max, c.spool, c.dirOk))
    && (!delivered && !Failing(c, false) ==> NameOf(r) in b.held && b.held[NameOf(r)] == r)
  }

  /** With power to the end, the whole run did what it is for. */
  ghost predicate AsMeant(a: Snap, b: Snap, c: Cycle, course: Course, codec: Codec)
  {
    && ReplayedAsMeant(a, course.middle, course.stop, c.replay, codec)
    && (c.scan.None? ==> b == course.middle && !course.delivered)
    && (c.scan.Some? ==> SentOrSpooled(course.middle, b, c.scan.value, c, course.delivered, course.k))
  }

  /** One run: explained; as meant unless power went; and power cannot have gone if the
      supply lasts for three operations a listed file and four more. */
  ghost predicate RunStep(a: Snap, b: Snap, c: Cycle, course: Course, codec: Codec)
  {
    && a.acked <= b.acked
    && Explained(a, b, c, course.out, codec)
    && (course.delivered ==> c.scan.Some? && c.accept && c.scan.value in b.acked)
    && (!course.out ==> AsMeant(a, b, c, course, codec))
    && (course.out ==> c.power.Left? && c.power.operations <= 3 * |Listed(a.dir)| + 4)
  }

  /** Many runs, with the account before, between and after them. */
  ghost predicate Runs(trace: seq<Snap>, cycles: seq<Cycle>, courses: seq<Course>, codec: Codec)
  {
    && |trace| == |courses| + 1 && |courses| <= |cycles|
    && forall i :: 0 <= i < |courses| ==> RunStep(trace[i], trace[i + 1], cycles[i], courses[i], codec)
  }

  lemma RunsStep(trace: seq<Snap>, cycles: seq<Cycle>, courses: seq<Course>, b: Snap, course: Course, codec: Codec)
    requires Runs(trace, cycles, courses, codec) && |courses| < |cycles|
    requires RunStep(trace[|courses|], b, cycles[|courses|], course, codec)
    ensures Runs(trace + [b], cycles, courses + [course], codec)
  {
    var longer, more, n := trace + [b], courses + [course], |courses|;
    forall i | 0 <= i < |more| ensures RunStep(longer[i], longer[i + 1], cycles[i], more[i], codec) {
      if i < n {
        assert longer[i] == trace[i] && longer[i + 1] == trace[i + 1] && more[i] == courses[i];
      }
    }
  }

  /** q was held at the start or scanned in one of the first n runs. */
  ghost predicate Known(q: Report, a: Snap, cycles: seq<Cycle>, n: nat)
  {
    q in a.held.Values || exists j :: 0 <= j < n && j < |cycles| && cycles[j].scan == Some(q)
  }

  ghost predicate AckedIn(q: Report, a: Snap, c: Cycle, codec: Codec)
  {
    (c.scan == Some(q) && c.accept) || FromFile(q, a.dir, c.replay, codec)
  }

  ghost predicate LostIn(q: Report, c: Cycle, course: Course)
  {
    c.scan == Some(q) && Failing(c, course.out)
  }

  ghost predicate ReplacedIn(q: Report, a: Snap, cycles: seq<Cycle>, i: nat)
  {
    i < |cycles| && cycles[i].scan.Some? && SameName(q, cycles[i].scan.value) && Known(q, a, cycles, i)
  }

  ghost predicate EvictedIn(q: Report, trace: seq<Snap>, cycles: seq<Cycle>, i: nat)
  {
    && i < |cycles| && i + 1 < |trace| && cycles[i].scan.Some?
    && WasOldest(q, trace[i].dir, trace[i + 1].dir, cycles[i].max) && Known(q, trace[0], cycles, i)
  }

  ghost predicate UnreadableIn(q: Report, a: Snap, cycles: seq<Cycle>, i: nat)
  {
    i < |cycles| && NameOf(q) !in cycles[i].replay.readable && Known(q, a, cycles, i)
  }

  /** Over the first n runs: every change has its reason in one of them. */
  ghost predicate AllExplained(trace: seq<Snap>, cycles: seq<Cycle>, courses: seq<Course>, codec: Codec, n: nat)
    requires n <= |courses| <= |cycles| && |trace| == |courses| + 1
  {
    var a, b := trace[0], trace[n];
    && (forall q :: q in b.acked ==> q in a.acked || exists i: nat :: i < n && AckedIn(q, trace[i], cycles[i], codec))
    && (forall q :: q in b.lost ==> q in a.lost || exists i: nat :: i < n && LostIn(q, cycles[i], courses[i]))
    && (forall q :: q in b.replaced ==> q in a.replaced || exists i: nat :: i < n && ReplacedIn(q, a, cycles, i))
    && (forall q :: q in b.evicted ==> q in a.evicted || exists i: nat :: i < n && EvictedIn(q, trace, cycles, i))
    && (forall q :: q in b.unreadable ==> q in a.unreadable || exists i: nat :: i < n && UnreadableIn(q, a, cycles, i))
    && (forall q :: q in b.held.Values ==> Known(q, a, cycles, n))
  }

  lemma KnownLater(q: Report, a: Snap, cycles: seq<Cycle>, n: nat, m: nat)
    requires Known(q, a, cycles, n) && n <= m
    ensures Known(q, a, cycles, m)
  {
  }

  /** The reasons of the runs so far, extended by those of one more. */
  lemma ExplainedStep(trace: seq<Snap>, cycles: seq<Cycle>, courses: seq<Course>, codec: Codec, n: nat)
    requires n < |courses| <= |cycles| && |trace| == |courses| + 1 && AllExplained(trace, cycles, courses, codec, n)
    requires Explained(trace[n], trace[n + 1], cycles[n], courses[n].out, codec)
    ensures AllExplained(trace, cycles, courses, codec, n + 1)
  {
    var a, b, c := trace[0], trace[n], trace[n + 1];
    forall q | q in c.acked && q !in a.acked ensures exists i: nat :: i < n + 1 && AckedIn(q, trace[i], cycles[i], codec) {
      if q !in b.acked { assert AckedIn(q, trace[n], cycles[n], codec); }
    }
    forall q | q in c.lost && q !in a.lost ensures exists i: nat :: i < n + 1 && LostIn(q, cycles[i], courses[i]) {
      if q !in b.lost { assert LostIn(q, cycles[n], courses[n]); }
    }
    ReplacedStep(trace, cycles, courses, codec, n);
    EvictedStep(trace, cycles, courses, codec, n);
    forall q | q in c.held.Values ensures Known(q, a, cycles, n + 1) {
      if q in b.held.Values { KnownLater(q, a, cycles, n, n + 1); }
    }
  }

  lemma ReplacedStep(trace: seq<Snap>, cycles: seq<Cycle>, courses: seq<Course>, codec: Codec, n: nat)
    requires n < |courses| <= |cycles| && |trace| == |courses| + 1 && AllExplained(trace, cycles, courses, codec, n)
    requires Explained(trace[n], trace[n + 1], cycles[n], courses[n].out, codec)
    ensures var a, c := trace[0], trace[n + 1];
      && (forall q :: q in c.replaced ==> q in a.replaced || exists i: nat :: i < n + 1 && ReplacedIn(q, a, cycles, i))
      && (forall q :: q in c.unreadable ==> q in a.unreadable || exists i: nat :: i < n + 1 && UnreadableIn(q, a, cycles, i))
  {
    var a, b, c := trace[0], trace[n], trace[n + 1];
    forall q | q in c.replaced && q !in a.replaced ensures exists i: nat :: i < n + 1 && ReplacedIn(q, a, cycles, i) {
      if q !in b.replaced { assert ReplacedIn(q, a, cycles, n); }
    }
    forall q | q in c.unreadable && q !in a.unreadable ensures exists i: nat :: i < n + 1 && UnreadableIn(q, a, cycles, i) {
      if q !in b.unreadable { assert UnreadableIn(q, a, cycles, n); }
    }
  }

  lemma EvictedStep(trace: seq<Snap>, cycles: seq<Cycle>, courses: seq<Course>, codec: Codec, n: nat)
    requires n < |courses| <= |cycles| && |trace| == |courses| + 1 && AllExplained(trace, cycles, courses, codec, n)
    requires Explained(trace[n], trace[n + 1], cycles[n], courses[n].out, codec)
    ensures var a, c := trace[0], trace[n + 1];
      forall q :: q in c.evicted ==> q in a.evicted || exists i: nat :: i < n + 1 && EvictedIn(q, trace, cycles, i)
  {
    var a, c := trace[0], trace[n + 1];
    forall q | q in c.evicted && q !in a.evicted ensures exists i: nat :: i < n + 1 && EvictedIn(q, trace, cycles, i) {
      if q !in trace[n].evicted { assert EvictedIn(q, trace, cycles, n); }
    }
  }

  /** Every change over any runs has its reason. */
  lemma {:induction false} RunsAreExplained(trace: seq<Snap>, cycles: seq<Cycle>, courses: seq<Course>, codec: Codec, n: nat)
    requires Runs(trace, cycles, courses, codec) && n <= |courses|
    ensures AllExplained(trace, cycles, courses, codec, n)
  {
    if n == 0 {
      NothingToExplain(trace, cycles, courses, codec);
    } else {
      RunsAreExplained(trace, cycles, courses, codec, n - 1);
      RunIsExplained(trace, cycles, courses, codec, n - 1);
      ExplainedStep(trace, cycles, courses, codec, n - 1);
    }
  }

  lemma NothingToExplain(trace: seq<Snap>, cycles: seq<Cycle>, courses: seq<Course>, codec: Codec)
    requires |courses| <= |cycles| && |trace| == |courses| + 1
    ensures AllExplained(trace, cycles, courses, codec, 0)
  {
  }

  lemma RunIsExplained(trace: seq<Snap>, cycles: seq<Cycle>, courses: seq<Course>, codec: Codec, n: nat)
    requires Runs(trace, cycles, courses, codec) && n < |courses|
    ensures Explained(trace[n], trace[n + 1], cycles[n], courses[n].out, codec)
  {
    assert RunStep(trace[n], trace[n + 1], cycles[n], courses[n], codec);
  }

  lemma SteadyHolds(trace: seq<Snap>, cycles: seq<Cycle>, courses: seq<Course>, codec: Codec)
    requires Runs(trace, cycles, courses, codec)
    ensures forall i :: 0 <= i < |courses| && cycles[i].power.Steady? ==> !courses[i].out
  {
    forall i | 0 <= i < |courses| && cycles[i].power.Steady? ensures !courses[i].out {
      assert RunStep(trace[i], trace[i + 1], cycles[i], courses[i], codec);
    }
  }

  /** Runs whose spool can be written while power holds, with distinct file names. */
  ghost predicate WellRun(a: Snap, cycles: seq<Cycle>)
  {
    && (forall i :: 0 <= i < |cycles| && cycles[i].scan.Some? ==> !Failing(cycles[i], false))
    && (forall i, j :: 0 <= j < i < |cycles| && cycles[i].scan.Some? && cycles[j].scan.Some? ==>
          !SameName(cycles[j].scan.value, cycles[i].scan.value))
    && (forall q, i :: q in a.held.Values && 0 <= i < |cycles| && cycles[i].scan.Some? ==> !SameName(q, cycles[i].scan.value))
  }

  lemma NothingToLose(a: Snap, cycles: seq<Cycle>, courses: seq<Course>, q: Report)
    requires WellRun(a, cycles) && |courses| == |cycles| && forall i :: 0 <= i < |courses| ==> !courses[i].out
    ensures forall i: nat :: i < |cycles| ==> !LostIn(q, cycles[i], courses[i])
    ensures forall i: nat :: !ReplacedIn(q, a, cycles, i)
  {
  }

  lemma WellRunLosesNothing(trace: seq<Snap>, cycles: seq<Cycle>, courses: seq<Course>, codec: Codec)
    requires |courses| == |cycles| && Runs(trace, cycles, courses, codec) && WellRun(trace[0], cycles)
    requires forall i :: 0 <= i < |courses| ==> !courses[i].out
    ensures trace[|cycles|].lost <= trace[0].lost && trace[|cycles|].replaced <= trace[0].replaced
  {
    var a, b := trace[0], trace[|cycles|];
    RunsAreExplained(trace, cycles, courses, codec, |courses|);
    forall q | q in b.lost || q in b.replaced ensures (q in b.lost ==> q in a.lost) && (q in b.replaced ==> q in a.replaced) {
      NothingToLose(a, cycles, courses, q);
    }
  }

  /** A server that takes nothing. */
  predicate Refuses(c: Cycle)
  {
    !c.accept && c.replay.accepted == {}
  }

  lemma NothingIsTaken(q: Report, a: Snap, c: Cycle, codec: Codec)
    requires Refuses(c)
    ensures !AckedIn(q, a, c, codec)
  {
  }

  /** While no server takes anything, nothing is acknowledged. */
  lemma NoServerNoAcks(trace: seq<Snap>, cycles: seq<Cycle>, courses: seq<Course>, codec: Codec)
    requires Runs(trace, cycles, courses, codec) && forall i :: 0 <= i < |courses| ==> Refuses(cycles[i])
    ensures forall q :: q in trace[|courses|].acked ==> q in trace[0].acked
  {
    RunsAreExplained(trace, cycles, courses, codec, |courses|);
    forall q | q in trace[|courses|].acked ensures q in trace[0].acked {
      forall i: nat | i < |courses| ensures !AckedIn(q, trace[i], cycles[i], codec) {
        NothingIsTaken(q, trace[i], cycles[i], codec);
      }
    }
  }

  /** Once the server is back, every report on disk that can be read is delivered in one run
      with power to the end. */
  lemma ServerBackDeliversAll(a: Snap, b: Snap, c: Cycle, course: Course, foreign: set<string>,
                              temps: set<string>, codec: Codec, name: string)
    requires codec.RoundTrips() && Whole(a.dir, a.held, foreign, temps, codec) && WellNamed(a.held, temps)
    requires RunStep(a, b, c, course, codec) && !course.out
    requires c.replay.listable && forall n :: n in Listed(a.dir) ==> n in c.replay.accepted
    requires name in a.held && name in c.replay.readable
    ensures a.held[name] in b.acked
  {
    HeldIsListed(a.dir, a.held, foreign, temps, codec, name);
    ReplayTakesAll(a, course.middle, course.stop, c.replay, codec, name);
    assert course.middle.acked <= b.acked;
  }

  lemma HeldIsListed(dir: map<string, Node>, held: map<string, Report>, foreign: set<string>, temps: set<string>,
                     codec: Codec, name: string)
    requires codec.RoundTrips() && Whole(dir, held, foreign, temps, codec) && WellNamed(held, temps) && name in held
    ensures name in Listed(dir) && codec.decode(dir[name].content) == Some(held[name])
  {
    FileNamesAreListed(held[name].timestamp, held[name].scanID);
    assert codec.decode(codec.encode(held[name])) == Some(held[name]);
  }

  lemma ReplayTakesAll(a: Snap, b: Snap, stop: nat, io: IO, codec: Codec, name: string)
    requires ReplayedAsMeant(a, b, stop, io, codec)
    requires io.listable && forall n :: n in Listed(a.dir) ==> n in io.accepted
    requires name in Listed(a.dir) && Usable(a.dir, name, io, codec)
    ensures codec.decode(a.dir[name].content).value in b.acked
  {
    var names := Listed(a.dir);
    assert stop == |names| && names[..stop] == names;
    DeliverableHolds(a.dir, names, io, codec, name);
  }

  lemma {:induction false} DeliverableHolds(dir: map<string, Node>, names: seq<string>, io: IO, codec: Codec, name: string)
    requires name in names && Usable(dir, name, io, codec)
    ensures codec.decode(dir[name].content).value in Deliverable(dir, names, io, codec)
  {
    if name in names[..|names| - 1] {
      DeliverableHolds(dir, names[..|names| - 1], io, codec, name);
    } else {
      assert names[|names| - 1] == name;
    }
  }

  lemma ListedShrinks(a: map<string, Node>, b: map<string, Node>)
    requires Within(b, a)
    ensures SpoolNamesIn(b) <= SpoolNamesIn(a) && |Listed(b)| <= |Listed(a)|
  {
    SubsetSize(SpoolNamesIn(b), SpoolNamesIn(a));
  }

  lemma HeldShrinks(a: Snap, b: Snap, io: IO)
    requires OnlySafeLosses(a, b, io)
    ensures forall temps :: WellNamed(a.held, temps) ==> WellNamed(b.held, temps)
    ensures forall r :: r in b.held.Values ==> r in a.held.Values
  {
    forall r | r in b.held.Values ensures r in a.held.Values {
      var n :| n in b.held && b.held[n] == r;
      assert a.held[n] == r;
    }
  }

  /** A replay takes held reports away only for reasons of its own. */
  lemma ReplayIsExplained(a: Snap, b: Snap, done: seq<string>, temps: set<string>, c: Cycle, codec: Codec)
    requires OnlySafeLosses(a, b, c.replay) && WellNamed(a.held, temps) && SentInOrder(a, b, done, c.replay, codec)
    requires b.lost == a.lost && b.replaced == a.replaced && b.evicted == a.evicted
    ensures Explained(a, b, c, false, codec)
  {
    HeldShrinks(a, b, c.replay);
    AcksHaveFiles(a, b, done, c.replay, codec);
    forall q | q in b.unreadable && q !in a.unreadable ensures q in a.held.Values && NameOf(q) !in c.replay.readable {
      var n :| n in a.held && n !in c.replay.readable && a.held[n] == q;
      assert NameOf(q) == n;
    }
  }

  /** What happens to the new report after the replay, explained apart from the replay. */
  ghost predicate ExplainedLater(a: Snap, b: Snap, c: Cycle, out: bool)
  {
    && (forall q :: q in b.acked ==> q in a.acked || (c.scan == Some(q) && c.accept))
    && (forall q :: q in b.lost ==> q in a.lost || (c.scan == Some(q) && Failing(c, out)))
    && (forall q :: q in b.replaced ==> q in a.replaced || (q in a.held.Values && c.scan.Some? && SameName(q, c.scan.value)))
    && (forall q :: q in b.evicted ==> q in a.evicted || (q in a.held.Values && c.scan.Some? && WasOldest(q, a.dir, b.dir, c.max)))
    && b.unreadable <= a.unreadable
    && (forall q :: q in b.held.Values ==> q in a.held.Values || c.scan == Some(q))
  }

  /** A replay adds nothing and evicts nothing. */
  ghost predicate Shrank(a: Snap, b: Snap)
  {
    && (forall q :: q in b.held.Values ==> q in a.held.Values)
    && SpoolNamesIn(b.dir) <= SpoolNamesIn(a.dir) && b.evicted == a.evicted
  }

  lemma ExplainedTwice(a: Snap, b: Snap, d: Snap, c: Cycle, out: bool, codec: Codec)
    requires Explained(a, b, c, false, codec) && ExplainedLater(b, d, c, out)
    requires Shrank(a, b)
    ensures Explained(a, d, c, out, codec)
  {
    forall q | q in d.evicted && q !in a.evicted
      ensures q in a.held.Values && c.scan.Some? && WasOldest(q, a.dir, d.dir, c.max)
    {
      EvictedEarlierOrLater(a, b, d, c, out, codec, q);
    }
  }

  /** What the replay at the start of a run does. */
  ghost predicate FirstHalf(a: Snap, b: Snap, c: Cycle, stop: nat, on: bool, codec: Codec)
  {
    && a.acked <= b.acked && Shrank(a, b) && |Listed(b.dir)| <= |Listed(a.dir)|
    && Explained(a, b, c, false, codec)
    && (on ==> ReplayedAsMeant(a, b, stop, c.replay, codec))
  }

  /** What becomes of the new report. */
  ghost predicate SecondHalf(a: Snap, b: Snap, r: Report, c: Cycle, delivered: bool, k: nat, on: bool)
  {
    && b.acked == a.acked + (if delivered then [r] else []) && (delivered ==> c.accept)
    && ExplainedLater(a, b, c, !on)
    && (on ==> SentOrSpooled(a, b, r, c, delivered, k))
  }

  lemma PowerSpent(start: Power, halfway: Power, end: Power, n: nat, m: nat)
    requires start.Uses(2 * n, halfway) && halfway.Uses(m + 4, end) && m <= n
    ensures !end.On() ==> start.Left? && start.operations <= 3 * n + 4
  {
  }

  /** A replay is a run if the scan has no result. */
  lemma OnlyReplay(a: Snap, b: Snap, c: Cycle, course: Course, codec: Codec)
    requires c.scan.None? && course.middle == b && !course.delivered
    requires FirstHalf(a, b, c, course.stop, !course.out, codec)
    requires course.out ==> c.power.Left? && c.power.operations <= 3 * |Listed(a.dir)| + 4
    ensures RunStep(a, b, c, course, codec)
  {
  }

  /** A replay and the rest of the run make a run. */
  lemma TwoHalves(a: Snap, b: Snap, d: Snap, c: Cycle, course: Course, on: bool, codec: Codec)
    requires c.scan.Some? && course.middle == b
    requires FirstHalf(a, b, c, course.stop, on, codec) && (!course.out ==> on)
    requires SecondHalf(b, d, c.scan.value, c, course.delivered, course.k, !course.out)
    requires course.out ==> c.power.Left? && c.power.operations <= 3 * |Listed(a.dir)| + 4
    ensures RunStep(a, d, c, course, codec)
  {
    ExplainedTwice(a, b, d, c, course.out, codec);
  }

  lemma EvictedEarlierOrLater(a: Snap, b: Snap, d: Snap, c: Cycle, out: bool, codec: Codec, q: Report)
    requires q in d.evicted && q !in b.evicted && ExplainedLater(b, d, c, out)
    requires Shrank(a, b)
    ensures q in a.held.Values && c.scan.Some? && WasOldest(q, a.dir, d.dir, c.max)
  {
    WasOldestWider(q, b.dir, d.dir, a.dir, d.dir, c.max);
  }

  lemma RoomIsExplained(a: Snap, b: Snap, r: Report, c: Cycle, out: bool)
    requires OnlyMakesRoom(a.held, a.evicted, a.replaced, b.held, b.evicted, b.replaced, r) && c.scan == Some(r)
    requires OldestWent(a.evicted, b.evicted, a.dir, b.dir, c.max)
    requires b.lost == a.lost && b.unreadable == a.unreadable && b.acked == a.acked
    ensures ExplainedLater(a, b, c, out)
  {
    forall q | q in b.held.Values ensures q in a.held.Values || q == r {
      var n :| n in b.held && b.held[n] == q;
      if n in a.held { assert a.held[n] in a.held.Values; }
    }
  }

  lemma SentIsExplained(a: Snap, b: Snap, r: Report, c: Cycle)
    requires c.scan == Some(r) && c.accept && b == a.(acked := a.acked + [r])
    ensures forall out :: ExplainedLater(a, b, c, out)
  {
  }

  lemma LossIsExplained(a: Snap, b: Snap, d: Snap, r: Report, c: Cycle, out: bool)
    requires c.scan == Some(r) && ExplainedLater(a, b, c, out)
    requires d == b || (Failing(c, out) && d == b.(lost := b.lost + {r}))
    ensures ExplainedLater(a, d, c, out)
  {
  }

  ghost predicate AllCompleted(cycles: seq<Cycle>, n: nat, completed: set<Report>)
  {
    forall i :: 0 <= i < n && i < |cycles| && cycles[i].scan.Some? ==> cycles[i].scan.value in completed
  }

  lemma AllCompletedStep(cycles: seq<Cycle>, n: nat, completed: set<Report>, completed': set<Report>)
    requires n < |cycles| && AllCompleted(cycles, n, completed) && completed' == completed + ScanOf(cycles[n])
    ensures AllCompleted(cycles, n + 1, completed') && completed <= completed'
  {
  }

  class Agent {
    const codec: Codec
    var dir: map<string, Node>
    var power: Power

    /** Reports currently on disk whole, by the name they were written under. */
    ghost var held: map<string, Report>
    /** Entries that were there before this agent. */
    ghost const foreign: set<string>
    /** Names used for temporary files. */
    ghost var temps: set<string>
    /** Every report a scan has produced. */
    ghost var completed: set<Report>
    /** Reports the server acknowledged, in order. */
    ghost var acked: seq<Report>
    /** Reports given up: to make room, because their file could not be read, because
        another report took their name, and because their run ended with them neither
        acknowledged nor written. */
    ghost var evicted: set<Report>
    ghost var unreadable: set<Report>
    ghost var replaced: set<Report>
    ghost var lost: set<Report>

    constructor (codec: Codec, dir: map<string, Node>)
      requires codec.RoundTrips()
      ensures Valid() && Named() && this.dir == dir && completed == {} && acked == [] && this.codec == codec
    {
      this.codec, this.dir, power := codec, dir, Left(0);
      held, foreign, temps := map[], dir.Keys, {};
      completed, acked, evicted, unreadable, replaced, lost := {}, [], {}, {}, {}, {};
    }

    /** The report is where it should be, or its fate is known. */
    ghost predicate Accounted(r: Report)
      reads this
    {
      r in acked || r in evicted || r in unreadable || r in replaced || r in lost || OnDisk(r)
    }

    ghost predicate OnDisk(r: Report)
      reads this
    {
      r in held.Values
    }

    ghost predicate Valid()
      reads this
    {
      && codec.RoundTrips()
      && Whole(dir, held, foreign, temps, codec)
      && forall r :: r in completed ==> Accounted(r)
    }

    ghost predicate Named()
      reads this
    {
      WellNamed(held, temps)
    }

    // -------------------------------------------------------------------
    // Primitive effects.  Each costs power; without power nothing happens.

    method Reboot(power: Power)
      requires Valid()
      modifies this`power
      ensures Valid() && this.power == power
    {
      this.power := power;
    }

    /** os.Remove. */
    method Unlink(name: string, io: IO) returns (ok: bool)
      modifies this`dir, this`power
      ensures old(power).Uses(1, power)
      ensures ok ==> old(power).On()
      ensures power.On() ==> old(power).On() && ok == (name in io.removable)
      ensures dir == if ok then old(dir) - {name} else old(dir)
    {
      ok := power.On() && name in io.removable;
      if ok {
        power := power.Spent();
        dir := dir - {name};
      }
    }

    /** Removal to make room. */
    method Evict(name: string, io: IO) returns (ok: bool)
      requires Valid()
      modifies this`dir, this`held, this`power, this`evicted
      ensures old(power).Uses(1, power)
      ensures Valid()
      ensures power.On() ==> old(power).On() && ok == (name in io.removable)
      ensures dir == (if ok then old(dir) - {name} else old(dir)) && held == (if ok then old(held) - {name} else old(held))
      ensures evicted == old(evicted) + Vanishing(ok, name, old(held))
    {
      ok := Unlink(name, io);
      if ok {
        ghost var before := held;
        held := held - {name};
        evicted := evicted + Vanishing(true, name, before);
        ValuesRemove(before, name);
      }
    }

    /** Removal during a replay.  If a held report goes, `why` says what that means. */
    method Discard(name: string, io: IO, ghost why: Fate) returns (ok: bool)
      requires power.On() ==> Removable(name, why)
      requires Valid()
      modifies this`dir, this`held, this`power, this`unreadable
      ensures old(power).Uses(1, power)
      ensures Valid()
      ensures ok ==> old(power).On()
      ensures power.On() ==> old(power).On() && ok == (name in io.removable)
      ensures dir == (if ok then old(dir) - {name} else old(dir)) && held == (if ok then old(held) - {name} else old(held))
      ensures unreadable == old(unreadable) + Vanishing(ok && why.Unreadable?, name, old(held))
    {
      ok := Unlink(name, io);
      if ok {
        ghost var before := held;
        held := held - {name};
        unreadable := unreadable + Vanishing(why.Unreadable?, name, before);
        ValuesRemove(before, name);
      }
    }

    ghost predicate Removable(name: string, why: Fate)
      reads this
    {
      name in held ==>
        match why
        case Delivered => held[name] in acked
        case Corrupt => false
        case _ => true
    }

    /** One POST of a report; acknowledged or not. */
    method Send(r: Report, accept: bool) returns (ok: bool)
      requires Valid()
      modifies this`acked, this`power
      ensures old(power).Uses(1, power)
      ensures Valid()
      ensures ok ==> old(power).On() && accept
      ensures power.On() ==> old(power).On() && ok == accept
      ensures acked == old(acked) + if ok then [r] else []
    {
      ok := power.On() && accept;
      power := power.Spent();
      if ok { acked := acked + [r]; }
    }

    /** os.WriteFile to a temporary name.  If it fails, or power goes, some prefix of the
        data may be left. */
    method WriteTemp(name: string, data: string, io: IO, cut: Option<nat>) returns (ok: bool)
      requires Valid() && name !in held
      modifies this`dir, this`power, this`temps
      ensures old(power).Uses(1, power)
      ensures Valid() && temps == old(temps) + {name}
      ensures ok ==> dir == old(dir)[name := File(data)]
      ensures dir - {name} == old(dir) - {name}
      ensures power.On() ==> old(power).On() && ok == io.writable
    {
      temps := temps + {name};
      ok := power.Spent().On() && io.writable;
      if ok {
        dir := dir[name := File(data)];
      } else if power.On() && cut.Some? {
        dir := dir[name := File(data[..if cut.value <= |data| then cut.value else |data|])];
      }
      power := power.Spent();
    }

    /** os.Rename, atomic: the finished temporary file takes its final name. */
    method Rename(tmp: string, name: string, io: IO, r: Report) returns (ok: bool)
      requires Valid() && tmp in temps && name !in temps
      requires tmp in dir && dir[tmp] == File(codec.encode(r))
      modifies this`dir, this`held, this`power, this`replaced
      ensures old(power).Uses(1, power)
      ensures Valid()
      ensures ok ==> dir == old(dir)[name := old(dir)[tmp]] - {tmp} && held == old(held)[name := r]
      ensures !ok ==> dir == old(dir) && held == old(held)
      ensures power.On() ==> old(power).On() && ok == io.renamable
      ensures replaced == old(replaced) + Vanishing(ok, name, old(held))
    {
      ok := power.On() && io.renamable;
      power := power.Spent();
      if ok {
        ghost var before := held;
        dir := dir[name := dir[tmp]] - {tmp};
        held := held[name := r];
        replaced := replaced + Vanishing(true, name, before);
        ValuesUpdate(before, name, r);
      }
    }

    // -------------------------------------------------------------------
    // The program.

    /** The spooled files, oldest name first. */
    function ListSpoolFiles(): seq<string>
      reads this
    {
      Listed(dir)
    }

    ghost function Now(): Snap
      reads this
    {
      Snap(dir, held, acked, unreadable, evicted, replaced, lost)
    }

    /** One spooled file: unreadable or unparsable files are dropped, others are sent and,
        once acknowledged, deleted. */
    method ReplayOne(name: string, io: IO) returns (verdict: Verdict)
      requires Valid() && name in dir && dir[name].File?
      modifies this`dir, this`held, this`power, this`acked, this`unreadable
      ensures old(power).Uses(2, power)
      ensures Valid()
      ensures OnlySafeLosses(old(Now()), Now(), io)
      ensures dir == old(dir) || dir == old(dir) - {name}
      ensures SentOne(old(Now()), Now(), name, verdict, io, codec)
      ensures power.On() ==> old(power).On() && Handled(old(Now()), Now(), name, verdict, io, codec)
    {
      verdict := Skipped;
      var removed;
      if name !in io.readable {
        removed := Discard(name, io, Unreadable);
      } else if codec.decode(dir[name].content).None? {
        removed := Discard(name, io, Corrupt);
      } else {
        var report := codec.decode(dir[name].content).value;
        var ok := Send(report, name in io.accepted);
        if !ok { return Refused; }
        verdict := Sent;
        removed := Discard(name, io, Delivered);
      }
    }

    /** One file of a replay that began at `before`. */
    method ReplayNext(names: seq<string>, i: nat, io: IO, ghost before: Snap) returns (verdict: Verdict)
      requires Valid() && i < |names| && names[i] in dir && dir[names[i]].File?
      requires OnlySafeLosses(before, Now(), io) && Within(dir, before.dir) && SentInOrder(before, Now(), names[..i], io, codec)
      modifies this`dir, this`held, this`power, this`acked, this`unreadable
      ensures old(power).Uses(2, power) && Valid()
      ensures OnlySafeLosses(before, Now(), io) && Within(dir, before.dir)
      ensures dir == old(dir) || dir == old(dir) - {names[i]}
      ensures SentInOrder(before, Now(), if verdict.Refused? then names[..i] else names[..i + 1], io, codec)
      ensures |acked| == |old(acked)| + if verdict.Sent? then 1 else 0
      ensures power.On() ==> old(power).On()
      ensures power.On() && old(Cleared(before.dir, dir, names[..i], io)) ==>
        if verdict.Refused? then
          Cleared(before.dir, dir, names[..i], io) && Usable(before.dir, names[i], io, codec) && names[i] !in io.accepted
        else Cleared(before.dir, dir, names[..i + 1], io)
    {
      ghost var middle := Now();
      verdict := ReplayOne(names[i], io);
      OnlySafeLossesCompose(before, middle, Now(), io);
      if !verdict.Refused? {
        SentStep(before, middle, Now(), names, i, verdict, io, codec);
        if power.On() && Cleared(before.dir, middle.dir, names[..i], io) {
          ClearedStep(before.dir, middle, Now(), names, i, verdict, io, codec);
        }
      }
    }

    /** Resends spooled reports, oldest first, up to the first refusal.  With power to
        the end: exactly the files before `stop` are dealt with, the file at `stop` (if
        any) is one the server refused, and a file dealt with stays only if it cannot be
        deleted.  With or without power, every usable file before `stop` is acknowledged,
        in order and counted, nothing else is, and there are only safe losses. */
    method ReplaySpool(io: IO) returns (sent: nat, ghost stop: nat)
      requires Valid()
      modifies this`dir, this`held, this`power, this`acked, this`unreadable
      ensures old(power).Uses(2 * |old(ListSpoolFiles())|, power)
      ensures Valid()
      ensures OnlySafeLosses(old(Now()), Now(), io) && Within(dir, old(dir))
      ensures var names := if io.listable then old(ListSpoolFiles()) else [];
        && stop <= |names|
        && SentInOrder(old(Now()), Now(), names[..stop], io, codec)
        && sent == |acked| - |old(acked)|
      ensures power.On() ==> old(power).On() && ReplayedAsMeant(old(Now()), Now(), stop, io, codec)
    {
      var names := if io.listable then ListSpoolFiles() else [];
      sent, stop := 0, 0;
      assert forall j :: 0 <= j < |names| ==> names[j] in names;
      ghost var before := Now();
      for i := 0 to |names|
        invariant Valid() && stop == i && old(power).Uses(2 * i, power)
        invariant forall j :: i <= j < |names| ==> names[j] in dir && dir[names[j]].File?
        invariant OnlySafeLosses(before, Now(), io) && Within(dir, before.dir)
        invariant SentInOrder(before, Now(), names[..i], io, codec) && sent == |acked| - |before.acked|
        invariant power.On() ==> old(power).On() && Cleared(before.dir, dir, names[..i], io)
      {
        var verdict := ReplayNext(names, i, io, before);
        if verdict.Refused? {
          break;
        }
        sent := if verdict.Sent? then sent + 1 else sent;
        stop := i + 1;
      }
    }

    /** One eviction; the ghost arguments carry the account of the whole call. */
    method EvictOldest(name: string, io: IO, ghost before: Snap, ghost names: seq<string>, ghost k: nat, ghost excess: nat)
      returns (removed: bool)
      requires Valid() && EvictedSoFar(before, Now(), names, k, excess) && k < excess && name == names[k]
      modifies this`dir, this`held, this`power, this`evicted
      ensures old(power).Uses(1, power)
      ensures Valid() && EvictedSoFar(before, Now(), names, if removed then k + 1 else k, excess)
      ensures power.On() ==> old(power).On() && removed == (name in io.removable)
    {
      ghost var middle := Now();
      removed := Evict(name, io);
      EvictStep(before, middle, Now(), names, k, excess, removed);
    }

    /** Deletes the oldest spooled files until fewer than `max` remain; `k` counts them.
        Stops at the first file that cannot be deleted. */
    method EvictForCapacity(max: int, io: IO) returns (ok: bool, ghost names: seq<string>, ghost k: nat)
      requires Valid()
      modifies this`dir, this`held, this`power, this`evicted
      ensures old(power).Uses(|names|, power)
      ensures Valid()
      ensures names == old(ListSpoolFiles())
      ensures EvictedSoFar(old(Now()), Now(), names, k, Excess(|names|, max))
      ensures k > 0 ==> 0 < max <= |names| - k + 1
      ensures power.On() ==>
        && old(power).On()
        && ok == (max <= 0 || (io.listable && |names| - k < max))
        && (!ok && io.listable ==> names[k] !in io.removable)
    {
      names, k := ListSpoolFiles(), 0;
      if max <= 0 {
        return true, names, 0;
      }
      if !io.listable {
        return false, names, 0;
      }
      ghost var before := Now();
      ok, k := EvictDown(max, io, before, names);
    }

    /** The loop of the eviction. */
    method EvictDown(max: int, io: IO, ghost before: Snap, ghost names: seq<string>) returns (ok: bool, ghost k: nat)
      requires Valid() && max > 0 && before == Now() && names == ListSpoolFiles()
      modifies this`dir, this`held, this`power, this`evicted
      ensures old(power).Uses(|names|, power) && (power.On() ==> old(power).On())
      ensures Valid() && EvictedSoFar(before, Now(), names, k, Excess(|names|, max))
      ensures ok <==> k == Excess(|names|, max)
      ensures power.On() && !ok ==> names[k] !in io.removable
    {
      var files := ListSpoolFiles();
      ghost var excess := Excess(|names|, max);
      EvictStart(before, names, excess);
      k := 0;
      while |files| >= max
        invariant Valid() && old(power).Uses(k, power) && (power.On() ==> old(power).On())
        invariant EvictedSoFar(before, Now(), names, k, excess) && files == names[k..]
      {
        var removed := EvictOldest(files[0], io, before, names, k, excess);
        if !removed {
          return false, k;
        }
        files := files[1..];
        k := k + 1;
      }
      ok := true;
    }

    /** The temporary file and its atomic renaming; if that fails the temporary file goes. */
    method WriteAndRename(r: Report, name: string, io: IO, cut: Option<nat>) returns (ok: bool)
      requires Valid() && Named() && IsInt64(r.timestamp) && name == FileName(r.timestamp, r.scanID)
      modifies this`dir, this`held, this`power, this`replaced, this`temps
      ensures old(power).Uses(3, power)
      ensures Valid() && Named()
      ensures !ok ==> held == old(held) && replaced == old(replaced)
      ensures ok ==> Replaces(old(held), old(replaced), held, replaced, name, r)
      ensures ok ==> var node := File(codec.encode(r));
        dir == old(dir)[name + ".tmp" := node][name := node] - {name + ".tmp"}
      ensures power.On() ==> old(power).On() && ok == (io.writable && io.renamable)
      ensures power.On() && !ok && io.writable && name + ".tmp" in io.removable ==> name + ".tmp" !in dir
      ensures !ok ==> dir - {name + ".tmp"} == old(dir) - {name + ".tmp"}
    {
      var tmp := name + ".tmp";
      FileNamesAreListed(r.timestamp, r.scanID);
      TempIsNotHeld(held, temps, tmp);
      ReplacedSameName(held, temps, r, name);
      ok := WriteTemp(tmp, codec.encode(r), io, cut);
      if ok {
        ok := Rename(tmp, name, io, r);
        if !ok {
          var gone := Unlink(tmp, io);
        }
      }
    }

    /** Eviction before `r` is written; that it may fail does not matter. */
    method MakeRoom(r: Report, max: int, io: IO) returns (ghost k: nat)
      requires Valid() && Named()
      modifies this`dir, this`held, this`power, this`evicted
      ensures old(power).Uses(|old(ListSpoolFiles())|, power) && (power.On() ==> old(power).On())
      ensures Valid() && Named()
      ensures OnlyMakesRoom(old(held), old(evicted), replaced, held, evicted, replaced, r)
      ensures forall n :: n in held ==> n in old(held) && held[n] == old(held)[n]
      ensures OldestWent(old(evicted), evicted, old(dir), dir, max)
      ensures k <= Excess(|old(ListSpoolFiles())|, max) && RemovedExactly(old(dir), dir, old(ListSpoolFiles())[..k])
      ensures power.On() ==>
        var names := old(ListSpoolFiles());
        ((max <= 0 || (io.listable && forall n :: n in names ==> n in io.removable)) ==> k == Excess(|names|, max))
    {
      ghost var before := Now();
      ghost var names: seq<string>;
      var ok;
      ok, names, k := EvictForCapacity(max, io);
      RoomByEviction(before, Now(), before.evicted, evicted, names, Excess(|names|, max), replaced, r);
      OldestAreEvicted(before, Now(), names, k, max, temps);
    }

    /** Makes room, whether that works or not, and writes; `middle` is the directory in
        between. */
    method EvictAndWrite(r: Report, max: int, io: IO, cut: Option<nat>) returns (ok: bool, ghost k: nat,
                         ghost middle: map<string, Node>)
      requires Valid() && Named() && IsInt64(r.timestamp)
      modifies this`dir, this`held, this`power, this`evicted, this`replaced, this`temps
      ensures old(power).Uses(|old(ListSpoolFiles())| + 3, power)
      ensures Valid() && Named()
      ensures OnlyMakesRoom(old(held), old(evicted), old(replaced), held, evicted, replaced, r)
      ensures OldestWent(old(evicted), evicted, old(dir), dir, max)
      ensures ok ==>
        var name, node := FileName(r.timestamp, r.scanID), File(codec.encode(r));
        name in held && held[name] == r && dir == middle[name + ".tmp" := node][name := node] - {name + ".tmp"}
      ensures power.On() ==>
        var names := old(ListSpoolFiles());
        && old(power).On() && ok == (io.writable && io.renamable)
        && k <= Excess(|names|, max) && RemovedExactly(old(dir), middle, names[..k])
        && ((max <= 0 || (io.listable && forall n :: n in names ==> n in io.removable)) ==> k == Excess(|names|, max))
    {
      var name := FileName(r.timestamp, r.scanID);
      ghost var before := Now();
      k := MakeRoom(r, max, io);
      ghost var between := Now();
      middle := dir;
      ok := WriteAndRename(r, name, io, cut);
      FileNamesAreListed(r.timestamp, r.scanID);
      ListingKept(middle, dir, name + ".tmp", name, File(codec.encode(r)));
      OldestStillWent(before.evicted, evicted, before.dir, middle, dir, max);
      if ok {
        RoomByReplacement(before.held, before.evicted, before.replaced, between.held, evicted, held, replaced, name, r);
      }
    }

    /** Writes a report for later delivery: makes room, writes a temporary file, renames
        it.  `k` is the number of files evicted.  With power to the end the spool then
        lists exactly the files that were not evicted, the newest ones, and the new one. */
    method SpoolReport(r: Report, max: int, io: IO, dirOk: bool, cut: Option<nat>)
      returns (path: Option<string>, ghost k: nat)
      requires Valid() && Named() && IsInt64(r.timestamp)
      modifies this`dir, this`held, this`power, this`evicted, this`replaced, this`temps
      ensures old(power).Uses(|old(ListSpoolFiles())| + 3, power)
      ensures Valid() && Named()
      ensures OnlyMakesRoom(old(held), old(evicted), old(replaced), held, evicted, replaced, r)
      ensures OldestWent(old(evicted), evicted, old(dir), dir, max)
      ensures path.Some? ==> path.value == FileName(r.timestamp, r.scanID) && path.value in held && held[path.value] == r
      ensures power.On() ==> old(power).On()
      ensures power.On() ==>
        SpooledAsMeant(old(ListSpoolFiles()), ListSpoolFiles(), k, path, FileName(r.timestamp, r.scanID), max, io, dirOk)
    {
      if !dirOk {
        return None, 0;
      }
      var name := FileName(r.timestamp, r.scanID);
      ghost var dir0, names, dir1 := dir, Listed(dir), dir;
      var ok;
      ok, k, dir1 := EvictAndWrite(r, max, io, cut);
      if !ok {
        return None, k;
      }
      path := Some(name);
      if power.On() {
        FileNamesAreListed(r.timestamp, r.scanID);
        SpoolingWorked(dir0, dir1, dir, names, k, name, File(codec.encode(r)), max, io);
      }
    }

    /** Closes the account of a run's report. */
    ghost method Conclude(r: Report, gone: bool)
      requires Valid() && (gone || r in acked || OnDisk(r))
      modifies this`completed, this`lost
      ensures Valid() && completed == old(completed) + {r}
      ensures lost == if gone then old(lost) + {r} else old(lost)
    {
      if gone { lost := lost + {r}; }
      completed := completed + {r};
    }

    /** Spooling after a failed send. */
    method KeepForLater(r: Report, c: Cycle) returns (kept: bool, ghost k: nat)
      requires Valid() && Named() && IsInt64(r.timestamp) && c.scan == Some(r)
      modifies this`dir, this`held, this`power, this`evicted, this`replaced, this`temps
      ensures old(power).Uses(|old(ListSpoolFiles())| + 3, power) && (power.On() ==> old(power).On())
      ensures Valid() && Named()
      ensures if kept then NameOf(r) in held && held[NameOf(r)] == r && OnDisk(r) else Failing(c, !power.On())
      ensures ExplainedLater(old(Now()), Now(), c, !power.On())
      ensures power.On() ==>
        && kept == !Failing(c, false)
        && SpooledAsMeant(old(ListSpoolFiles()), ListSpoolFiles(), k, if kept then Some(NameOf(r)) else None, NameOf(r),
                          c.max, c.spool, c.dirOk)
    {
      ghost var before := Now();
      var path: Option<string>;
      path, k := SpoolReport(r, c.max, c.spool, c.dirOk, c.cut);
      kept := path.Some?;
      if kept { assert r in held.Values; }
      RoomIsExplained(before, Now(), r, c, !power.On());
    }

    /** Sends the new report, and spools it if that failed. */
    method SendOrSpool(r: Report, c: Cycle) returns (delivered: bool, kept: bool, ghost k: nat)
      requires Valid() && Named() && IsInt64(r.timestamp) && c.scan == Some(r)
      modifies this`dir, this`held, this`power, this`acked, this`evicted, this`replaced, this`temps
      ensures old(power).Uses(|old(ListSpoolFiles())| + 4, power) && (power.On() ==> old(power).On())
      ensures Valid() && Named()
      ensures delivered ==> r in acked
      ensures !delivered ==> if kept then OnDisk(r) else Failing(c, !power.On())
      ensures acked == old(acked) + (if delivered then [r] else []) && (delivered ==> c.accept)
      ensures ExplainedLater(old(Now()), Now(), c, !power.On())
      ensures power.On() ==> SentOrSpooled(old(Now()), Now(), r, c, delivered, k)
    {
      ghost var before := Now();
      delivered := Send(r, c.accept);
      kept, k := false, 0;
      if delivered {
        SentIsExplained(before, Now(), r, c);
      } else {
        assert Now() == before;
        kept, k := KeepForLater(r, c);
      }
    }

    /** The second half of a run, which began at `before`. */
    method Deliver(r: Report, c: Cycle, ghost before: Snap) returns (delivered: bool, ghost k: nat)
      requires Valid() && Named() && IsInt64(r.timestamp) && c.scan == Some(r) && before == Now()
      modifies this`dir, this`held, this`power, this`acked, this`evicted, this`replaced, this`temps, this`completed, this`lost
      ensures old(power).Uses(|Listed(before.dir)| + 4, power) && (power.On() ==> old(power).On())
      ensures Valid() && Named()
      ensures completed == old(completed) + {r}
      ensures SecondHalf(before, Now(), r, c, delivered, k, power.On())
    {
      var kept: bool;
      delivered, kept, k := SendOrSpool(r, c);
      ghost var after := Now();
      Conclude(r, !delivered && !kept);
      LossIsExplained(before, after, Now(), r, c, !power.On());
    }

    /** The first half of a run: resend what is spooled, and never mind the result. */
    method ReplayFirst(c: Cycle, ghost before: Snap) returns (ghost stop: nat)
      requires Valid() && Named() && before == Now()
      modifies this`dir, this`held, this`power, this`acked, this`unreadable
      ensures Valid() && Named()
      ensures old(power).Uses(2 * |Listed(before.dir)|, power) && (power.On() ==> old(power).On())
      ensures FirstHalf(before, Now(), c, stop, power.On(), codec)
    {
      var sent: nat;
      sent, stop := ReplaySpool(c.replay);
      HeldShrinks(before, Now(), c.replay);
      ListedShrinks(before.dir, dir);
      ReplayIsExplained(before, Now(), (if c.replay.listable then Listed(before.dir) else [])[..stop], temps, c, codec);
    }

    /** One run of the agent: replay, scan, send, and spool if sending failed.  Whatever
        fails and whenever power goes, every report ever completed stays accounted for,
        and every change to the account has its reason in this run; with power to the end
        the run does what it is for. */
    method Run(c: Cycle) returns (delivered: bool, ghost course: Course)
      requires Valid() && Named() && (c.scan.Some? ==> IsInt64(c.scan.value.timestamp)) && power == c.power
      modifies this
      ensures Valid() && Named()
      ensures completed == old(completed) + ScanOf(c)
      ensures course.delivered == delivered && course.out == !power.On()
      ensures RunStep(old(Now()), Now(), c, course, codec)
    {
      ghost var before := Now();
      ghost var stop: nat, k: nat;
      stop := ReplayFirst(c, before);
      ghost var middle, halfway := Now(), power.On();
      if c.scan.None? {
        delivered, course := false, Course(false, !power.On(), stop, middle, 0);
        PowerSpent(c.power, power, power, |Listed(before.dir)|, 0);
        NoScan(c, completed);
        OnlyReplay(before, middle, c, course, codec);
        return;
      }
      ghost var left := power;
      delivered, k := Deliver(c.scan.value, c, middle);
      PowerSpent(c.power, left, power, |Listed(before.dir)|, |Listed(middle.dir)|);
      course := Course(delivered, !power.On(), stop, middle, k);
      TwoHalves(before, middle, Now(), c, course, halfway, codec);
    }

    /** Any number of runs, each on whatever power and with whatever failures.  `trace` is
        the account before, between and after the runs, `courses` what each of them did. */
    method RunAll(cycles: seq<Cycle>) returns (delivered: seq<bool>, ghost trace: seq<Snap>, ghost courses: seq<Course>)
      requires Valid() && Named()
      requires forall i :: 0 <= i < |cycles| && cycles[i].scan.Some? ==> IsInt64(cycles[i].scan.value.timestamp)
      modifies this
      ensures Valid() && Named() && old(completed) <= completed
      ensures AllCompleted(cycles, |cycles|, completed) && forall r :: r in completed ==> Accounted(r)
      ensures |delivered| == |courses| == |cycles| && forall i :: 0 <= i < |cycles| ==> delivered[i] == courses[i].delivered
      ensures Runs(trace, cycles, courses, codec) && trace[0] == old(Now()) && trace[|cycles|] == Now()
      ensures AllExplained(trace, cycles, courses, codec, |cycles|)
      ensures forall i :: 0 <= i < |cycles| && cycles[i].power.Steady? ==> !courses[i].out
      ensures forall name :: name in dir && IsSpoolName(name) && name !in foreign ==>
        dir[name].File? && codec.decode(dir[name].content).Some?
    {
      delivered, trace, courses := [], [Now()], [];
      for n := 0 to |cycles|
        invariant Valid() && Named() && old(completed) <= completed
        invariant AllCompleted(cycles, n, completed)
        invariant |delivered| == |courses| == n && forall i :: 0 <= i < n ==> delivered[i] == courses[i].delivered
        invariant Runs(trace, cycles, courses, codec) && trace[0] == old(Now()) && trace[n] == Now()
      {
        ghost var completed0 := completed;
        Reboot(cycles[n].power);
        var ok: bool;
        ghost var course: Course;
        ok, course := Run(cycles[n]);
        RunsStep(trace, cycles, courses, Now(), course, codec);
        AllCompletedStep(cycles, n, completed0, completed);
        delivered, trace, courses := delivered + [ok], trace + [Now()], courses + [course];
      }
      RunsAreExplained(trace, cycles, courses, codec, |courses|);
      SteadyHolds(trace, cycles, courses, codec);
      NothingIsPartial();
    }

    lemma NothingIsPartial()
      requires Valid() && Named()
      ensures forall name :: name in dir && IsSpoolName(name) && name !in foreign ==>
        dir[name].File? && codec.decode(dir[name].content).Some?
    {
      forall name | name in dir && IsSpoolName(name) && name !in foreign
        ensures dir[name].File? && codec.decode(dir[name].content).Some?
      {
        ListedFilesAreComplete(dir, held, foreign, temps, codec, name);
      }
    }

    /** Acknowledged, on disk whole, dropped as unreadable, or evicted. */
    ghost predicate Safe(r: Report)
      reads this
    {
      r in acked || OnDisk(r) || r in unreadable || r in evicted
    }

    /** Runs on steady power with a writable spool and distinct names lose nothing: every
        report is acknowledged, on disk whole, dropped as unreadable, or evicted; and while
        no server takes anything, it is not the first of these. */
    method RunWell(cycles: seq<Cycle>) returns (delivered: seq<bool>, ghost trace: seq<Snap>, ghost courses: seq<Course>)
      requires Valid() && Named()
      requires forall i :: 0 <= i < |cycles| && cycles[i].scan.Some? ==> IsInt64(cycles[i].scan.value.timestamp)
      requires forall i :: 0 <= i < |cycles| ==> cycles[i].power.Steady?
      requires WellRun(Now(), cycles)
      modifies this
      ensures Valid() && Named()
      ensures |courses| == |cycles| && Runs(trace, cycles, courses, codec) && trace[0] == old(Now()) && trace[|cycles|] == Now()
      ensures forall i :: 0 <= i < |cycles| ==> !courses[i].out
      ensures lost <= old(lost) && replaced <= old(replaced)
      ensures forall i :: 0 <= i < |cycles| && cycles[i].scan.Some? ==>
        var r := cycles[i].scan.value; r !in old(lost) && r !in old(replaced) ==> Safe(r)
      ensures |delivered| == |cycles|
      ensures forall i :: 0 <= i < |cycles| ==> delivered[i] == (cycles[i].scan.Some? && cycles[i].accept)
      ensures (forall i :: 0 <= i < |cycles| ==> Refuses(cycles[i])) ==> forall q :: q in acked ==> q in old(acked)
    {
      delivered, trace, courses := RunAll(cycles);
      WellRunLosesNothing(trace, cycles, courses, codec);
      forall i | 0 <= i < |cycles| ensures courses[i].delivered == (cycles[i].scan.Some? && cycles[i].accept) {
        assert RunStep(trace[i], trace[i + 1], cycles[i], courses[i], codec);
      }
      if forall i :: 0 <= i < |cycles| ==> Refuses(cycles[i]) { NoServerNoAcks(trace, cycles, courses, codec); }
    }
  }

  // ---------------------------------------------------------------------
  // Name order is time order, so delivery and eviction go by age.

  lemma NameOrderIsTimeOrder(a: Report, b: Report)
    requires IsInt64(a.timestamp) && IsInt64(b.timestamp) && 0 <= a.timestamp
    requires Leq(FileName(a.timestamp, a.scanID), FileName(b.timestamp, b.scanID))
    ensures a.timestamp <= b.timestamp
  {
    if b.timestamp < a.timestamp { FileNameOrder(b.timestamp, b.scanID, a.timestamp, a.scanID); }
  }

  ghost predicate AgesAscend(held: map<string, Report>, names: seq<string>)
  {
    && (forall n :: n in names ==> n in held)
    && forall i, j :: 0 <= i < j < |names| ==> held[names[i]].timestamp <= held[names[j]].timestamp
  }

  /** Sorted names of held reports are sorted by age: what eviction takes is no newer than
      what it leaves, and replay starts with the oldest. */
  lemma SortedNamesAscend(held: map<string, Report>, temps: set<string>, names: seq<string>)
    requires WellNamed(held, temps) && Sorted(names)
    requires forall n :: n in names ==> n in held && 0 <= held[n].timestamp
    ensures AgesAscend(held, names)
  {
    forall i, j | 0 <= i < j < |names| ensures held[names[i]].timestamp <= held[names[j]].timestamp {
      NameOrderIsTimeOrder(held[names[i]], held[names[j]]);
    }
  }

  ghost predicate Ascending(d: seq<Report>, latest: int)
  {
    && (forall i :: 0 <= i < |d| ==> d[i].timestamp <= latest)
    && (forall i, j :: 0 <= i < j < |d| ==> d[i].timestamp <= d[j].timestamp)
  }

  lemma {:induction false} DeliverableAscends(dir: map<string, Node>, held: map<string, Report>, names: seq<string>,
                                              io: IO, codec: Codec, latest: int)
    requires codec.RoundTrips() && AgesAscend(held, names)
    requires forall n :: n in names ==> n in dir && dir[n] == File(codec.encode(held[n])) && held[n].timestamp <= latest
    ensures Ascending(Deliverable(dir, names, io, codec), latest)
  {
    if names != [] {
      var before, last := names[..|names| - 1], names[|names| - 1];
      forall n | n in before ensures held[n].timestamp <= held[last].timestamp {
        var i :| 0 <= i < |before| && before[i] == n;
        assert names[i] == n;
      }
      DeliverableAscends(dir, held, before, io, codec, held[last].timestamp);
      var prefix, tail := Deliverable(dir, before, io, codec), Content(dir, last, io, codec);
      ContentIsHeld(dir, held[last], last, io, codec);
      assert Deliverable(dir, names, io, codec) == prefix + tail;
      AscendAppend(prefix, tail, held[last]);
    }
  }

  lemma ContentIsHeld(dir: map<string, Node>, r: Report, name: string, io: IO, codec: Codec)
    requires codec.RoundTrips() && name in dir && dir[name] == File(codec.encode(r))
    ensures Content(dir, name, io, codec) in [[], [r]]
  {
    assert codec.decode(codec.encode(r)) == Some(r);
  }

  lemma AscendAppend(prefix: seq<Report>, tail: seq<Report>, r: Report)
    requires tail in [[], [r]]
    requires Ascending(prefix, r.timestamp)
    ensures Ascending(prefix + tail, r.timestamp)
  {
  }

  /** A replay of agent-written files delivers in the order the reports were made. */
  lemma DeliveredInTimeOrder(dir: map<string, Node>, held: map<string, Report>, foreign: set<string>, temps: set<string>,
                             names: seq<string>, io: IO, codec: Codec)
    requires codec.RoundTrips() && Whole(dir, held, foreign, temps, codec) && WellNamed(held, temps) && Sorted(names)
    requires forall n :: n in names ==> n in held && 0 <= held[n].timestamp
    ensures Ascending(Deliverable(dir, names, io, codec), INT64_MAX)
  {
    SortedNamesAscend(held, temps, names);
    DeliverableAscends(dir, held, names, io, codec, INT64_MAX);
  }

  lemma ListedAreHeld(dir: map<string, Node>, held: map<string, Report>, foreign: set<string>, temps: set<string>,
                      stop: nat, codec: Codec)
    requires codec.RoundTrips() && Whole(dir, held, foreign, temps, codec) && WellNamed(held, temps)
    requires OwnListing(dir, held, foreign) && stop <= |Listed(dir)|
    ensures forall n :: n in Listed(dir)[..stop] ==> n in held && 0 <= held[n].timestamp
  {
    forall n | n in Listed(dir)[..stop] ensures n in held && 0 <= held[n].timestamp {
      assert n in Listed(dir);
      ListedFilesAreComplete(dir, held, foreign, temps, codec, n);
    }
  }

  /** Only files of this agent are listed, none from before 1970. */
  ghost predicate OwnListing(dir: map<string, Node>, held: map<string, Report>, foreign: set<string>)
  {
    forall n :: n in Listed(dir) ==> n !in foreign && (n in held ==> 0 <= held[n].timestamp)
  }

  lemma AppendedPart<T>(p: seq<T>, d: seq<T>)
    ensures p <= p + d && (p + d)[|p|..] == d
  {
  }

  /** A replay over files of this agent sends the reports in the order they were made. */
  lemma ReplayDeliversInTimeOrder(a: Snap, b: Snap, foreign: set<string>, temps: set<string>, stop: nat, io: IO, codec: Codec)
    requires codec.RoundTrips() && Whole(a.dir, a.held, foreign, temps, codec) && WellNamed(a.held, temps)
    requires OwnListing(a.dir, a.held, foreign)
    requires stop <= |Listed(a.dir)| && SentInOrder(a, b, Listed(a.dir)[..stop], io, codec)
    ensures a.acked <= b.acked && Ascending(b.acked[|a.acked|..], INT64_MAX)
  {
    var names := Listed(a.dir)[..stop];
    ListedAreHeld(a.dir, a.held, foreign, temps, stop, codec);
    PrefixSorted(Listed(a.dir), stop);
    DeliveredInTimeOrder(a.dir, a.held, foreign, temps, names, io, codec);
    AppendedPart(a.acked, Deliverable(a.dir, names, io, codec));
  }

  lemma PrefixSorted(names: seq<string>, k: nat)
    requires Sorted(names) && k <= |names|
    ensures Sorted(names[..k])
  {
  }
}
