/** Resizing a machine's disks, entry after entry, against the space of their pools (lib/MachineDiskResize.js). */
module DiskResize {
  import opened Wrappers
  import opened Strings

  // ---- Sizes ----

  function DigitCount(s: string): (n: nat)
    ensures n <= |s| && (forall i :: 0 <= i < n ==> IsDigit(s[i])) && (n < |s| ==> !IsDigit(s[n]))
  {
    if s == "" || !IsDigit(s[0]) then 0 else 1 + DigitCount(s[1..])
  }

  function Factor(unit: char): Option<nat> {
    match unit
    case 'K' => Some(0x400)
    case 'k' => Some(0x400)
    case 'M' => Some(0x10_0000)
    case 'm' => Some(0x10_0000)
    case 'G' => Some(0x4000_0000)
    case 'g' => Some(0x4000_0000)
    case 'T' => Some(0x100_0000_0000)
    case 't' => Some(0x100_0000_0000)
    case 'P' => Some(0x4_0000_0000_0000)
    case 'p' => Some(0x4_0000_0000_0000)
    case _ => None
  }

  /** The parts a size is matched into: digits, perhaps digits after a point, perhaps a unit, perhaps a B. */
  datatype SizeText = SizeText(whole: string, fraction: string, unit: string, suffix: string) {
    predicate Valid() {
      AllDigits(whole) && (fraction == "" || AllDigits(fraction)) && ValidEnd(unit, suffix)
    }

    function Spelled(): string {
      (if fraction == "" then whole else whole + ("." + fraction)) + (unit + suffix)
    }

    function UnitBytes(): nat
      requires Valid()
    {
      if unit == "" then 1 else Factor(unit[0]).value
    }

    /** The digits without the point, times the unit. */
    function Mantissa(): nat
      requires Valid()
    {
      Digits(whole + fraction) * UnitBytes()
    }

    /** `Math.round` of the number times the unit. */
    function Bytes(): nat
      requires Valid()
    {
      Rounded(Mantissa(), PowerOfTen(|fraction|))
    }
  }

  /** m / p to the nearest whole number, halves up. */
  function Rounded(m: nat, p: nat): nat
    requires p > 0
  {
    (2 * m + p) / (2 * p)
  }

  predicate IsSuffix(s: string) {
    s == "" || s == "B" || s == "b"
  }

  predicate IsUnit(s: string) {
    |s| == 1 && Factor(s[0]).Some?
  }

  predicate ValidEnd(unit: string, suffix: string) {
    (unit == "" || IsUnit(unit)) && IsSuffix(suffix)
  }

  /** What may follow the number. */
  function MatchEnd(rest: string): Option<(string, string)> {
    if IsSuffix(rest) then Some(("", rest))
    else if IsUnit(rest[..1]) && IsSuffix(rest[1..]) then Some((rest[..1], rest[1..]))
    else None
  }

  function MatchSize(size: string): (t: Option<SizeText>)
    ensures t.Some? ==> t.value.Valid()
  {
    MatchTrimmed(Trim(size))
  }

  function MatchTrimmed(s: string): (t: Option<SizeText>)
    ensures t.Some? ==> t.value.Valid()
  {
    var n := DigitCount(s);
    if n == 0 then None
    else if n < |s| && s[n] == '.' then MatchFraction(s[..n], s[n + 1..])
    else Matched(s[..n], "", MatchEnd(s[n..]))
  }

  /** What follows the point. */
  function MatchFraction(whole: string, tail: string): (t: Option<SizeText>)
    requires AllDigits(whole)
    ensures t.Some? ==> t.value.Valid()
  {
    var places := DigitCount(tail);
    if places == 0 then None else Matched(whole, tail[..places], MatchEnd(tail[places..]))
  }

  function Matched(whole: string, fraction: string, end: Option<(string, string)>): Option<SizeText> {
    match end
    case None => None
    case Some((unit, suffix)) => Some(SizeText(whole, fraction, unit, suffix))
  }

  function ParseSizeToBytes(size: string): Option<nat> {
    match MatchSize(size)
    case None => None
    case Some(t) => Some(t.Bytes())
  }

  lemma {:induction false} DigitCountOf(digits: string, rest: string)
    requires forall c :: c in digits ==> IsDigit(c)
    requires rest != "" ==> !IsDigit(rest[0])
    ensures DigitCount(digits + rest) == |digits|
  {
    if digits == "" {
      assert digits + rest == rest;
    } else {
      DigitCountOf(digits[1..], rest);
      assert (digits + rest)[1..] == digits[1..] + rest;
    }
  }

  lemma EndMatches(unit: string, suffix: string)
    requires ValidEnd(unit, suffix)
    ensures MatchEnd(unit + suffix) == Some((unit, suffix))
    ensures var end := unit + suffix;
      end != "" ==> !IsDigit(end[0]) && end[0] != '.' && !IsSpace(Last(end))
  {
    if unit == "" {
      assert unit + suffix == suffix;
    } else {
      assert (unit + suffix)[..1] == unit && (unit + suffix)[1..] == suffix;
    }
  }

  lemma SizeIsTrimmed(t: SizeText)
    requires t.Valid()
    ensures Trim(t.Spelled()) == t.Spelled()
  {
    EndMatches(t.unit, t.suffix);
    var s, end := t.Spelled(), t.unit + t.suffix;
    assert s[0] == t.whole[0] && t.whole[0] in t.whole;
    var digits := if t.fraction == "" then t.whole else t.fraction;
    assert Last(digits) in digits && Last(s) == if end == "" then Last(digits) else Last(end);
    TrimFixed(s);
  }

  lemma WholeSizeMatches(t: SizeText)
    requires t.Valid() && t.fraction == ""
    ensures MatchTrimmed(t.Spelled()) == Some(t)
  {
    var s, n, end := t.Spelled(), |t.whole|, t.unit + t.suffix;
    EndMatches(t.unit, t.suffix);
    DigitCountOf(t.whole, end);
    assert s[n..] == end && s[..n] == t.whole;
  }

  lemma FractionMatches(t: SizeText)
    requires t.Valid() && t.fraction != ""
    ensures MatchFraction(t.whole, t.fraction + (t.unit + t.suffix)) == Some(t)
  {
    var end := t.unit + t.suffix;
    var tail, k := t.fraction + end, |t.fraction|;
    EndMatches(t.unit, t.suffix);
    DigitCountOf(t.fraction, end);
    assert tail[..k] == t.fraction && tail[k..] == end;
  }

  lemma FractionSizeMatches(t: SizeText)
    requires t.Valid() && t.fraction != ""
    ensures MatchTrimmed(t.Spelled()) == Some(t)
  {
    var tail := t.fraction + (t.unit + t.suffix);
    assert t.Spelled() == t.whole + ("." + tail);
    DigitCountOf(t.whole, "." + tail);
    CutAtPoint(t.whole, tail);
    FractionMatches(t);
  }

  lemma CutAtPoint(whole: string, tail: string)
    ensures var s, n := whole + ("." + tail), |whole|;
      n < |s| && s[..n] == whole && s[n] == '.' && s[n + 1..] == tail
  {
  }

  lemma FractionIsSpelled(whole: string, tail: string)
    requires AllDigits(whole) && MatchFraction(whole, tail).Some?
    ensures MatchFraction(whole, tail).value.Spelled() == whole + ("." + tail)
  {
    var places := DigitCount(tail);
    assert tail == tail[..places] + tail[places..];
    var t := MatchFraction(whole, tail).value;
    assert t.Spelled() == (whole + ("." + tail[..places])) + tail[places..];
  }

  lemma WholeIsSpelled(whole: string, rest: string)
    requires AllDigits(whole) && MatchEnd(rest).Some?
    ensures Matched(whole, "", MatchEnd(rest)).value.Spelled() == whole + rest
  {
    if !IsSuffix(rest) {
      assert rest == rest[..1] + rest[1..];
    } else {
      assert "" + rest == rest;
    }
  }

  lemma MatchedIsSpelled(s: string)
    requires MatchTrimmed(s).Some?
    ensures s == MatchTrimmed(s).value.Spelled()
  {
    var n := DigitCount(s);
    if n < |s| && s[n] == '.' {
      FractionIsSpelled(s[..n], s[n + 1..]);
      assert s == s[..n] + ("." + s[n + 1..]);
    } else {
      WholeIsSpelled(s[..n], s[n..]);
      assert s == s[..n] + s[n..];
    }
  }

  /** A text matches in one way only: the parts are the ones that spell it, white space around it aside. */
  lemma SizeSyntax(size: string, t: SizeText)
    ensures MatchSize(size) == Some(t) <==> t.Valid() && Trim(size) == t.Spelled()
  {
    if t.Valid() && Trim(size) == t.Spelled() {
      SizeIsTrimmed(t);
      if t.fraction == "" {
        WholeSizeMatches(t);
      } else {
        FractionSizeMatches(t);
      }
    }
    if MatchSize(size) == Some(t) {
      MatchedIsSpelled(Trim(size));
    }
  }

  /** A size is its digits times its unit, rounded to the nearest byte, halves up; a whole number is exact. */
  lemma SizeValue(t: SizeText)
    requires t.Valid()
    ensures var r, m, p := t.Bytes(), Digits(t.whole + t.fraction) * t.UnitBytes(), PowerOfTen(|t.fraction|);
      2 * r * p - p <= 2 * m < 2 * r * p + p
    ensures t.fraction == "" ==> t.Bytes() == Digits(t.whole) * t.UnitBytes()
  {
    RoundedIsNearest(t.Mantissa(), PowerOfTen(|t.fraction|));
    assert t.fraction == "" ==> t.whole + t.fraction == t.whole;
  }

  lemma RoundedIsNearest(m: nat, p: nat)
    requires p > 0
    ensures var r := Rounded(m, p);
      2 * r * p - p <= 2 * m < 2 * r * p + p
    ensures p == 1 ==> Rounded(m, p) == m
  {
    var a, d := 2 * m + p, 2 * p;
    assert a == d * (a / d) + a % d;
  }

  lemma SizeReads(t: SizeText)
    requires t.Valid()
    ensures ParseSizeToBytes(t.Spelled()) == Some(t.Bytes())
  {
    SizeIsTrimmed(t);
    SizeSyntax(t.Spelled(), t);
  }

  /** The units are the powers of 1024, in either case, and there are no others. */
  lemma UnitsArePowers(unit: char)
    ensures Factor(unit) ==
      if unit in {'K', 'k'} then Some(1024)
      else if unit in {'M', 'm'} then Some(1024 * 1024)
      else if unit in {'G', 'g'} then Some(1024 * 1024 * 1024)
      else if unit in {'T', 't'} then Some(1024 * 1024 * 1024 * 1024)
      else if unit in {'P', 'p'} then Some(1024 * 1024 * 1024 * 1024 * 1024)
      else None
  {
  }

  /** A printed number with a unit reads as that many units; without one, as that many bytes. */
  lemma SizeReadsBack(n: nat, unit: string)
    requires unit == "" || IsUnit(unit)
    ensures ParseSizeToBytes(Decimal(n) + unit) == Some(if unit == "" then n else n * Factor(unit[0]).value)
  {
    var t := SizeText(Decimal(n), "", unit, "");
    assert t.Spelled() == Decimal(n) + (unit + "") && unit + "" == unit;
    SizeReads(t);
    SizeValue(t);
    DigitsOfDecimal(n);
  }

  // ---- The machine, its volumes and its document ----

  datatype Attr = Attr(name: string, value: string)
  datatype Machine = Machine(attrs: seq<Attr>, poweredOff: bool)
  datatype Entry = Entry(name: string, size: string, allowShrink: bool, allowOverprovision: bool)
  datatype Volume = Volume(size: nat, thick: bool)
  datatype DocumentDisk = DocumentDisk(volumeName: string, size: string)
  datatype Disks = Disks(boot: Option<string>, additional: seq<DocumentDisk>)
  datatype World = World(volumes: map<string, Volume>, available: map<string, int>, document: Option<Disks>)

  // How the commands answer while one entry is handled.
  datatype PoolAnswer = Faithful | Unreadable | NotFinite
  datatype Answers = Answers(volsize: bool, pool: PoolAnswer, zfsSet: bool, document: bool)

  datatype Reason =
    | Incomplete | NotADisk | BadSize | Unread | ShrinkNotAllowed | StillRunning
    | PoolTooSmall | SetFailed | DocumentFailed
  datatype Disk =
    | Skipped(name: string, dataset: string)
    | Resized(name: string, dataset: string, previous: nat, size: string)
  datatype Step = Step(world: World, result: Either)
  datatype Either = Done(disk: Disk) | Refused(reason: Reason)

  /** The dataset of the first attribute of that name, if it has a value. */
  function DatasetForDisk(attrs: seq<Attr>, name: string): Option<string> {
    if |attrs| == 0 then None
    else if attrs[0].name != name then DatasetForDisk(attrs[1..], name)
    else if attrs[0].value == "" then None
    else Some(attrs[0].value)
  }

  function PoolOf(dataset: string): string {
    Split(dataset, '/')[0]
  }

  function Leaf(dataset: string): string {
    Last(Split(dataset, '/'))
  }

  /** The size the document states for a volume name: that of the first disk listed under it. */
  function Listed(disks: seq<DocumentDisk>, volumeName: string): Option<string> {
    if |disks| == 0 then None
    else if disks[0].volumeName == volumeName then Some(disks[0].size)
    else Listed(disks[1..], volumeName)
  }

  function SetListed(disks: seq<DocumentDisk>, volumeName: string, size: string): seq<DocumentDisk> {
    if |disks| == 0 then []
    else if disks[0].volumeName == volumeName then [disks[0].(size := size)] + disks[1..]
    else [disks[0]] + SetListed(disks[1..], volumeName, size)
  }

  const BOOT_DISK := "bootdisk"

  function DocumentSize(document: Option<Disks>, name: string, dataset: string): Option<string> {
    match document
    case None => None
    case Some(disks) => if name == BOOT_DISK then disks.boot else Listed(disks.additional, Leaf(dataset))
  }

  function SetDocumentDiskSize(document: Option<Disks>, name: string, dataset: string, size: string): Option<Disks> {
    match document
    case None => None
    case Some(disks) =>
      if name == BOOT_DISK then
        if disks.boot.None? then document else Some(disks.(boot := Some(size)))
      else Some(disks.(additional := SetListed(disks.additional, Leaf(dataset), size)))
  }

  // ---- One entry ----

  /** How sizes are read: what follows holds for any way to read them. */
  type SizeReader = string -> Option<nat>

  /** The pool's answer refuses a growth only when it is a number and too small. */
  function PoolRefusal(world: World, dataset: string, delta: int, entry: Entry, answers: Answers): Option<Reason> {
    if entry.allowOverprovision then None
    else if answers.pool == Unreadable || PoolOf(dataset) !in world.available then Some(Unread)
    else if answers.pool == NotFinite || delta <= world.available[PoolOf(dataset)] then None
    else Some(PoolTooSmall)
  }

  datatype Decision = Refuse(reason: Reason) | Skip(dataset: string) | Set(dataset: string, target: nat)

  function Decide(parse: SizeReader, machine: Machine, world: World, entry: Entry, answers: Answers): Decision {
    if entry.name == "" || entry.size == "" then Refuse(Incomplete)
    else match DatasetForDisk(machine.attrs, entry.name)
      case None => Refuse(NotADisk)
      case Some(dataset) =>
        var target := parse(entry.size);
        if target == None || target == Some(0) then Refuse(BadSize)
        else if !answers.volsize || dataset !in world.volumes then Refuse(Unread)
        else DecideSize(machine, world, entry, answers, dataset, target.value)
  }

  function DecideSize(
    machine: Machine, world: World, entry: Entry, answers: Answers, dataset: string, target: nat): Decision
    requires dataset in world.volumes
  {
    var current := world.volumes[dataset].size;
    if target == current then Skip(dataset)
    else if target < current && !entry.allowShrink then Refuse(ShrinkNotAllowed)
    else if target < current && !machine.poweredOff then Refuse(StillRunning)
    else
      var refusal := if target < current then None else PoolRefusal(world, dataset, target - current, entry, answers);
      if refusal.Some? then Refuse(refusal.value)
      else if !answers.zfsSet then Refuse(SetFailed)
      else Set(dataset, target)
  }

  /** `zfs set volsize`: a thick volume takes what it grows by from its pool. */
  function SetVolume(world: World, dataset: string, target: nat): World
    requires dataset in world.volumes
  {
    var volume := world.volumes[dataset];
    var pool := PoolOf(dataset);
    world.(
      volumes := world.volumes[dataset := volume.(size := target)],
      available :=
        if volume.thick && pool in world.available
        then world.available[pool := world.available[pool] - (target - volume.size)]
        else world.available)
  }

  /** The document learns the new size. */
  function Saved(world: World, entry: Entry, dataset: string): World {
    world.(document := SetDocumentDiskSize(world.document, entry.name, dataset, entry.size))
  }

  function Resize(parse: SizeReader, machine: Machine, world: World, entry: Entry, answers: Answers): Step {
    match Decide(parse, machine, world, entry, answers)
    case Refuse(reason) => Step(world, Refused(reason))
    case Skip(dataset) => Step(world, Done(Skipped(entry.name, dataset)))
    case Set(dataset, target) =>
      var changed := SetVolume(world, dataset, target);
      if !answers.document then Step(changed, Refused(DocumentFailed))
      else
        Step(
          Saved(changed, entry, dataset),
          Done(Resized(entry.name, dataset, world.volumes[dataset].size, entry.size)))
  }

  // ---- All entries ----

  datatype Outcome = Outcome(world: World, disks: seq<Disk>, error: Option<Reason>)

  function Run(parse: SizeReader, machine: Machine, world: World, entries: seq<Entry>, answers: seq<Answers>): Outcome
    requires |answers| == |entries|
  {
    if |entries| == 0 then Outcome(world, [], None)
    else
      var before := Run(parse, machine, world, Init(entries), Init(answers));
      if before.error.Some? then before
      else
        var step := Resize(parse, machine, before.world, Last(entries), Last(answers));
        match step.result
        case Refused(reason) => Outcome(step.world, before.disks, Some(reason))
        case Done(disk) => Outcome(step.world, before.disks + [disk], None)
  }

  class Host {
    const parse: SizeReader
    var volumes: map<string, Volume>
    var available: map<string, int>
    var document: Option<Disks>

    function State(): World
      reads this
    {
      World(volumes, available, document)
    }

    constructor (world: World)
      ensures State() == world && parse == ParseSizeToBytes
    {
      parse := ParseSizeToBytes;
      volumes, available, document := world.volumes, world.available, world.document;
    }

    method AssertPoolCanBack(
      dataset: string, delta: int, entry: Entry, answers: Answers) returns (refusal: Option<Reason>)
      ensures refusal == PoolRefusal(State(), dataset, delta, entry, answers)
    {
      if entry.allowOverprovision {
        return None;
      }
      var pool := PoolOf(dataset);
      if answers.pool == Unreadable || pool !in available {
        return Some(Unread);
      }
      if answers.pool == NotFinite || delta <= available[pool] {
        return None;
      }
      return Some(PoolTooSmall);
    }

    method ResizeOne(machine: Machine, entry: Entry, answers: Answers) returns (result: Either)
      modifies this
      ensures Step(State(), result) == Resize(parse, machine, old(State()), entry, answers)
    {
      if entry.name == "" || entry.size == "" {
        return Refused(Incomplete);
      }
      var found := DatasetForDisk(machine.attrs, entry.name);
      if found.None? {
        return Refused(NotADisk);
      }
      var dataset := found.value;
      var target := parse(entry.size);
      if target == None || target == Some(0) {
        return Refused(BadSize);
      }
      if !answers.volsize || dataset !in volumes {
        return Refused(Unread);
      }
      var current := volumes[dataset].size;
      if target.value == current {
        return Done(Skipped(entry.name, dataset));
      }
      if target.value < current {
        if !entry.allowShrink {
          return Refused(ShrinkNotAllowed);
        }
        if !machine.poweredOff {
          return Refused(StillRunning);
        }
      } else {
        var refusal := AssertPoolCanBack(dataset, target.value - current, entry, answers);
        if refusal.Some? {
          return Refused(refusal.value);
        }
      }
      if !answers.zfsSet {
        return Refused(SetFailed);
      }
      var changed := SetVolume(State(), dataset, target.value);
      volumes, available := changed.volumes, changed.available;
      if !answers.document {
        return Refused(DocumentFailed);
      }
      document := SetDocumentDiskSize(document, entry.name, dataset, entry.size);
      return Done(Resized(entry.name, dataset, current, entry.size));
    }

    method ResizeMachineDisks(machine: Machine, entries: seq<Entry>, answers: seq<Answers>)
      returns (disks: seq<Disk>, error: Option<Reason>)
      requires |answers| == |entries|
      modifies this
      ensures Outcome(State(), disks, error) == Run(parse, machine, old(State()), entries, answers)
    {
      disks, error := [], None;
      ghost var start := State();
      for i := 0 to |entries|
        invariant error == None
        invariant Outcome(State(), disks, error) == Run(parse, machine, start, entries[..i], answers[..i])
      {
        assert Init(entries[..i + 1]) == entries[..i] && Init(answers[..i + 1]) == answers[..i];
        var result := ResizeOne(machine, entries[i], answers[i]);
        if result.Refused? {
          error := Some(result.reason);
          StopsThere(parse, machine, start, entries, answers, i + 1);
          return;
        }
        disks := disks + [result.disk];
      }
      assert entries[..|entries|] == entries && answers[..|entries|] == answers;
    }
  }

  /** Once refused, nothing more happens. */
  lemma {:induction false} StopsThere(
    parse: SizeReader, machine: Machine, world: World, entries: seq<Entry>, answers: seq<Answers>, k: nat)
    requires |answers| == |entries| && k <= |entries|
    requires Run(parse, machine, world, entries[..k], answers[..k]).error.Some?
    ensures Run(parse, machine, world, entries, answers) == Run(parse, machine, world, entries[..k], answers[..k])
  {
    if k == |entries| {
      assert entries[..k] == entries && answers[..k] == answers;
    } else {
      assert Init(entries)[..k] == entries[..k] && Init(answers)[..k] == answers[..k];
      StopsThere(parse, machine, world, Init(entries), Init(answers), k);
    }
  }

  // ---- What a refusal leaves ----

  /** The volume is set and the document cannot be saved. */
  predicate HalfApplies(parse: SizeReader, machine: Machine, world: World, entry: Entry, answers: Answers) {
    Decide(parse, machine, world, entry, answers).Set? && !answers.document
  }

  lemma SettingShows(world: World, dataset: string, target: nat)
    requires dataset in world.volumes && target != world.volumes[dataset].size
    ensures SetVolume(world, dataset, target).volumes != world.volumes
  {
    assert SetVolume(world, dataset, target).volumes[dataset].size != world.volumes[dataset].size;
  }

  /** A refused entry leaves the world as it was exactly when its volume was not set before the document failed. */
  lemma RefusedEntry(parse: SizeReader, machine: Machine, world: World, entry: Entry, answers: Answers)
    ensures var step := Resize(parse, machine, world, entry, answers);
      (step.result.Refused? ==> (step.world == world <==> !HalfApplies(parse, machine, world, entry, answers))) &&
      (HalfApplies(parse, machine, world, entry, answers) ==> step.result == Refused(DocumentFailed))
  {
    var decision := Decide(parse, machine, world, entry, answers);
    if decision.Set? {
      SettingShows(world, decision.dataset, decision.target);
    }
  }

  /**
   A run refused at entry k has applied the entries before k, all of them, and leaves exactly that behind unless entry k
   sets its volume and cannot save the document: only then is the refused entry half applied.
   */
  lemma {:induction false} RefusalAtEntry(
    parse: SizeReader, machine: Machine, world: World, entries: seq<Entry>, answers: seq<Answers>)
    requires |answers| == |entries|
    ensures var end := Run(parse, machine, world, entries, answers);
      end.error.Some? ==>
        var k := |end.disks|;
        k < |entries| &&
        var before := Run(parse, machine, world, entries[..k], answers[..k]);
        before.error == None && before.disks == end.disks &&
        Resize(parse, machine, before.world, entries[k], answers[k]) == Step(end.world, Refused(end.error.value)) &&
        (end.world == before.world <==> !HalfApplies(parse, machine, before.world, entries[k], answers[k]))
    ensures Run(parse, machine, world, entries, answers).error == None ==>
      |Run(parse, machine, world, entries, answers).disks| == |entries|
  {
    if |entries| > 0 {
      var n := |entries| - 1;
      RefusalAtEntry(parse, machine, world, Init(entries), Init(answers));
      var before := Run(parse, machine, world, Init(entries), Init(answers));
      if before.error.Some? {
        var k := |before.disks|;
        assert Init(entries)[..k] == entries[..k] && Init(answers)[..k] == answers[..k];
      } else {
        RefusedEntry(parse, machine, before.world, Last(entries), Last(answers));
        assert entries[..n] == Init(entries) && answers[..n] == Init(answers);
      }
    }
  }

  /** As long as the document can be saved, every refusal leaves exactly the entries before it. */
  lemma NothingHalfApplied(
    parse: SizeReader, machine: Machine, world: World, entries: seq<Entry>, answers: seq<Answers>)
    requires |answers| == |entries| && forall i :: 0 <= i < |answers| ==> answers[i].document
    ensures var end := Run(parse, machine, world, entries, answers);
      end.error.Some? ==>
        |end.disks| < |entries| &&
        end.world == Run(parse, machine, world, entries[..|end.disks|], answers[..|end.disks|]).world
  {
    RefusalAtEntry(parse, machine, world, entries, answers);
  }

  const DISK := "rpool/m/boot"
  const MACHINE := Machine([Attr(BOOT_DISK, DISK)], false)
  const WORLD := World(map[DISK := Volume(0x400, false)], map["rpool" := 0x1000], Some(Disks(Some("1K"), [])))
  const GROW := Entry(BOOT_DISK, "2K", false, false)
  const UNSAVED := Answers(true, Faithful, true, false)

  lemma GrowthHalfApplies(
    parse: SizeReader, machine: Machine, world: World, entry: Entry, answers: Answers, dataset: string, target: nat)
    requires entry.name != "" && entry.size != "" && DatasetForDisk(machine.attrs, entry.name) == Some(dataset)
    requires parse(entry.size) == Some(target) && dataset in world.volumes && !world.volumes[dataset].thick
    requires world.volumes[dataset].size < target && PoolOf(dataset) in world.available
    requires target - world.volumes[dataset].size <= world.available[PoolOf(dataset)]
    requires answers == UNSAVED
    ensures HalfApplies(parse, machine, world, entry, answers)
    ensures Run(parse, machine, world, [entry], [answers]) ==
      Outcome(world.(volumes := world.volumes[dataset := Volume(target, false)]), [], Some(DocumentFailed))
  {
    assert Init([entry]) == [] && Init([answers]) == [];
    assert Run(parse, machine, world, [], []) == Outcome(world, [], None);
    assert Resize(parse, machine, world, entry, answers).result == Refused(DocumentFailed);
  }

  lemma GrowIsToTwoKibibytes()
    ensures ParseSizeToBytes("2K") == Some(0x800)
  {
    assert Decimal(2) == "2" && "2" + "K" == "2K";
    SizeReadsBack(2, "K");
  }

  lemma PoolOfDisk()
    ensures PoolOf(DISK) == "rpool"
  {
    SplitPiece("rpool", "m/boot", '/');
    assert "rpool" + ['/'] + "m/boot" == DISK;
  }

  lemma DiskOfMachine()
    ensures DatasetForDisk(MACHINE.attrs, GROW.name) == Some(DISK)
  {
  }

  /** A half-applied entry: the run is refused, the volume has the new size and the document the old one. */
  lemma HalfAppliedEntry()
    ensures HalfApplies(ParseSizeToBytes, MACHINE, WORLD, GROW, UNSAVED)
    ensures Run(ParseSizeToBytes, MACHINE, WORLD, [GROW], [UNSAVED]) ==
      Outcome(WORLD.(volumes := WORLD.volumes[DISK := Volume(0x800, false)]), [], Some(DocumentFailed))
  {
    GrowIsToTwoKibibytes();
    PoolOfDisk();
    DiskOfMachine();
    GrowthHalfApplies(ParseSizeToBytes, MACHINE, WORLD, GROW, UNSAVED, DISK, 0x800);
  }

  // ---- When a growth is refused ----

  /** The pool of a volume is the part of its name before the first slash, or all of it. */
  lemma PoolIsFirstPart(pool: string, rest: string)
    requires '/' !in pool
    ensures PoolOf(pool + ("/" + rest)) == pool && PoolOf(pool) == pool
  {
    SplitPiece(pool, rest, '/');
    SplitSolid(pool, '/');
    assert pool + ("/" + rest) == pool + ['/'] + rest;
  }

  /**
   A growth that is not over-provisioned on purpose is refused for lack of space exactly when its pool answers with less
   than it takes, whether the volume is thick or sparse; otherwise it is set as far as the command succeeds.
   */
  lemma GrowthExactly(
    parse: SizeReader, machine: Machine, world: World, entry: Entry, answers: Answers, dataset: string, target: nat)
    requires entry.name != "" && entry.size != "" && DatasetForDisk(machine.attrs, entry.name) == Some(dataset)
    requires parse(entry.size) == Some(target) && dataset in world.volumes && answers.volsize
    requires world.volumes[dataset].size < target && PoolOf(dataset) in world.available
    ensures var step, need := Resize(parse, machine, world, entry, answers), target - world.volumes[dataset].size;
      var pool := PoolOf(dataset);
      (step.result == Refused(PoolTooSmall) <==>
        !entry.allowOverprovision && answers.pool == Faithful && world.available[pool] < need) &&
      (step.result == Refused(Unread) <==> !entry.allowOverprovision && answers.pool == Unreadable) &&
      (dataset in step.world.volumes && step.world.volumes[dataset].size == target <==>
        answers.zfsSet && (entry.allowOverprovision || answers.pool == NotFinite ||
          (answers.pool == Faithful && need <= world.available[pool])))
  {
  }

  /** What a resized disk reports: the size it had, the text it was asked for, and that its volume has that size now. */
  lemma ResizedReports(parse: SizeReader, machine: Machine, world: World, entry: Entry, answers: Answers)
    requires Resize(parse, machine, world, entry, answers).result.Done?
    ensures var step := Resize(parse, machine, world, entry, answers);
      var disk := step.result.disk;
      disk.name == entry.name && DatasetForDisk(machine.attrs, entry.name) == Some(disk.dataset) &&
      disk.dataset in world.volumes && disk.dataset in step.world.volumes &&
      parse(entry.size) == Some(step.world.volumes[disk.dataset].size) &&
      (disk.Skipped? <==> world.volumes[disk.dataset].size == step.world.volumes[disk.dataset].size) &&
      (disk.Skipped? ==> step.world == world) &&
      (disk.Resized? ==> disk.previous == world.volumes[disk.dataset].size && disk.size == entry.size)
  {
  }

  // ---- Pool space ----

  ghost predicate NotOverdrawn(world: World) {
    forall pool :: pool in world.available ==> world.available[pool] >= 0
  }

  /** The growth of a thick volume past what its pool has, let through unchecked. */
  predicate Overdraws(parse: SizeReader, machine: Machine, world: World, entry: Entry, answers: Answers) {
    match Decide(parse, machine, world, entry, answers)
    case Set(dataset, target) =>
      var pool := PoolOf(dataset);
      world.volumes[dataset].thick && pool in world.available &&
      target - world.volumes[dataset].size > world.available[pool] &&
      (entry.allowOverprovision || answers.pool == NotFinite)
    case _ => false
  }

  /** One entry keeps every pool's space from going below zero exactly when it is no unchecked growth of that kind. */
  lemma EntryKeepsSpace(parse: SizeReader, machine: Machine, world: World, entry: Entry, answers: Answers)
    requires NotOverdrawn(world)
    ensures NotOverdrawn(Resize(parse, machine, world, entry, answers).world) <==>
      !Overdraws(parse, machine, world, entry, answers)
  {
    var decision := Decide(parse, machine, world, entry, answers);
    if decision.Set? {
      var after := Resize(parse, machine, world, entry, answers).world;
      var pool := PoolOf(decision.dataset);
      assert after.available.Keys == world.available.Keys;
      assert forall p :: p in world.available && p != pool ==> after.available[p] == world.available[p];
    }
  }

  /** The entry was cleared to overdraw: its own override, or a pool that did not answer with a number. */
  predicate Unchecked(entry: Entry, answers: Answers) {
    entry.allowOverprovision || answers.pool == NotFinite
  }

  /** Without the override, no run of entries drives a pool below zero: each entry sees what the ones before it took. */
  lemma {:induction false} RunKeepsSpace(
    parse: SizeReader, machine: Machine, world: World, entries: seq<Entry>, answers: seq<Answers>)
    requires |answers| == |entries| && NotOverdrawn(world)
    requires forall i :: 0 <= i < |entries| ==>
      Unchecked(entries[i], answers[i]) ==> !OnThickVolume(machine, world, entries[i])
    ensures NotOverdrawn(Run(parse, machine, world, entries, answers).world)
  {
    if |entries| > 0 {
      RunKeepsSpace(parse, machine, world, Init(entries), Init(answers));
      var before := Run(parse, machine, world, Init(entries), Init(answers));
      RunKeepsKinds(parse, machine, world, Init(entries), Init(answers));
      if before.error == None {
        EntryKeepsSpace(parse, machine, before.world, Last(entries), Last(answers));
      }
    }
  }

  predicate OnThickVolume(machine: Machine, world: World, entry: Entry) {
    match DatasetForDisk(machine.attrs, entry.name)
    case None => false
    case Some(dataset) => dataset in world.volumes && world.volumes[dataset].thick
  }

  ghost predicate SameKinds(a: World, b: World) {
    a.volumes.Keys == b.volumes.Keys && a.available.Keys == b.available.Keys &&
    forall d :: d in a.volumes ==> a.volumes[d].thick == b.volumes[d].thick
  }

  lemma EntryKeepsKinds(parse: SizeReader, machine: Machine, world: World, entry: Entry, answers: Answers)
    ensures SameKinds(world, Resize(parse, machine, world, entry, answers).world)
  {
  }

  lemma {:induction false} RunKeepsKinds(
    parse: SizeReader, machine: Machine, world: World, entries: seq<Entry>, answers: seq<Answers>)
    requires |answers| == |entries|
    ensures SameKinds(world, Run(parse, machine, world, entries, answers).world)
  {
    if |entries| > 0 {
      RunKeepsKinds(parse, machine, world, Init(entries), Init(answers));
      var before := Run(parse, machine, world, Init(entries), Init(answers));
      if before.error == None {
        EntryKeepsKinds(parse, machine, before.world, Last(entries), Last(answers));
      }
    }
  }

  /** The bytes the thick volumes of a pool reserve, over a list of datasets. */
  function Reserved(datasets: seq<string>, volumes: map<string, Volume>, pool: string): nat {
    if |datasets| == 0 then 0
    else
      var d := Last(datasets);
      Reserved(Init(datasets), volumes, pool) +
      (if d in volumes && volumes[d].thick && PoolOf(d) == pool then volumes[d].size else 0)
  }

  ghost predicate Lists(datasets: seq<string>, volumes: map<string, Volume>) {
    (forall i, j :: 0 <= i < j < |datasets| ==> datasets[i] != datasets[j]) &&
    forall d :: d in volumes ==> d in datasets
  }

  lemma {:induction false} ReservedChange(
    datasets: seq<string>, volumes: map<string, Volume>, pool: string, d: string, size: nat)
    requires d in volumes
    requires forall i, j :: 0 <= i < j < |datasets| ==> datasets[i] != datasets[j]
    ensures Reserved(datasets, volumes[d := volumes[d].(size := size)], pool) == Reserved(datasets, volumes, pool) +
      if d in datasets && volumes[d].thick && PoolOf(d) == pool then size - volumes[d].size else 0
  {
    if |datasets| > 0 {
      ReservedChange(Init(datasets), volumes, pool, d, size);
      assert datasets == Init(datasets) + [Last(datasets)];
    }
  }

  lemma EntryConservesSpace(
    parse: SizeReader, machine: Machine, world: World, entry: Entry, answers: Answers, datasets: seq<string>,
    pool: string)
    requires Lists(datasets, world.volumes) && pool in world.available
    ensures var after := Resize(parse, machine, world, entry, answers).world;
      pool in after.available &&
      after.available[pool] + Reserved(datasets, after.volumes, pool) ==
        world.available[pool] + Reserved(datasets, world.volumes, pool)
  {
    match Decide(parse, machine, world, entry, answers)
    case Set(dataset, target) => ReservedChange(datasets, world.volumes, pool, dataset, target);
    case _ =>
  }

  /** Space is conserved: what a pool has available and what its thick volumes reserve add up to the same all along. */
  lemma {:induction false} SpaceIsConserved(
    parse: SizeReader, machine: Machine, world: World, entries: seq<Entry>, answers: seq<Answers>,
    datasets: seq<string>, pool: string)
    requires |answers| == |entries| && Lists(datasets, world.volumes) && pool in world.available
    ensures var end := Run(parse, machine, world, entries, answers).world;
      pool in end.available &&
      end.available[pool] + Reserved(datasets, end.volumes, pool) ==
        world.available[pool] + Reserved(datasets, world.volumes, pool)
  {
    if |entries| > 0 {
      SpaceIsConserved(parse, machine, world, Init(entries), Init(answers), datasets, pool);
      RunKeepsKinds(parse, machine, world, Init(entries), Init(answers));
      var before := Run(parse, machine, world, Init(entries), Init(answers));
      if before.error == None {
        EntryConservesSpace(parse, machine, before.world, Last(entries), Last(answers), datasets, pool);
      }
    }
  }

  // ---- Shrinking ----

  /** One entry lowers a volume exactly when it names it with a smaller size, allowed, on a machine that is off. */
  lemma EntryLowers(parse: SizeReader, machine: Machine, world: World, entry: Entry, answers: Answers, d: string)
    requires d in world.volumes
    ensures var after := Resize(parse, machine, world, entry, answers).world;
      d in after.volumes &&
      (after.volumes[d].size < world.volumes[d].size <==>
        machine.poweredOff && entry.allowShrink && answers.volsize && answers.zfsSet &&
        entry.name != "" && entry.size != "" && DatasetForDisk(machine.attrs, entry.name) == Some(d) &&
        parse(entry.size).Some? && 0 < parse(entry.size).value < world.volumes[d].size)
  {
  }

  ghost predicate AllowsShrinkOf(machine: Machine, entries: seq<Entry>, d: string) {
    machine.poweredOff &&
    exists i :: 0 <= i < |entries| && entries[i].allowShrink &&
      DatasetForDisk(machine.attrs, entries[i].name) == Some(d)
  }

  /** No run lowers a volume that no entry allows to shrink, nor any volume of a machine that is not off. */
  lemma {:induction false} RunLowersOnlyWithConsent(
    parse: SizeReader, machine: Machine, world: World, entries: seq<Entry>, answers: seq<Answers>, d: string)
    requires |answers| == |entries| && d in world.volumes && !AllowsShrinkOf(machine, entries, d)
    ensures var end := Run(parse, machine, world, entries, answers).world;
      d in end.volumes && end.volumes[d].size >= world.volumes[d].size
  {
    if |entries| > 0 {
      assert forall i :: 0 <= i < |entries| - 1 ==> Init(entries)[i] == entries[i];
      RunLowersOnlyWithConsent(parse, machine, world, Init(entries), Init(answers), d);
      var before := Run(parse, machine, world, Init(entries), Init(answers));
      if before.error == None {
        EntryLowers(parse, machine, before.world, Last(entries), Last(answers), d);
      }
    }
  }

  // ---- Doing it again ----

  predicate AtTarget(parse: SizeReader, machine: Machine, world: World, entry: Entry) {
    entry.name != "" && entry.size != "" &&
    match DatasetForDisk(machine.attrs, entry.name)
    case None => false
    case Some(d) =>
      d in world.volumes && world.volumes[d].size > 0 && parse(entry.size) == Some(world.volumes[d].size)
  }

  ghost predicate DistinctDisks(machine: Machine, entries: seq<Entry>) {
    forall i, j :: 0 <= i < j < |entries| ==>
      DatasetForDisk(machine.attrs, entries[i].name) != DatasetForDisk(machine.attrs, entries[j].name)
  }

  lemma EntryReachesTarget(parse: SizeReader, machine: Machine, world: World, entry: Entry, answers: Answers)
    requires Resize(parse, machine, world, entry, answers).result.Done?
    ensures AtTarget(parse, machine, Resize(parse, machine, world, entry, answers).world, entry)
  {
  }

  lemma EntryKeepsOthersAtTarget(
    parse: SizeReader, machine: Machine, world: World, entry: Entry, answers: Answers, other: Entry)
    requires AtTarget(parse, machine, world, other)
    requires DatasetForDisk(machine.attrs, other.name) != DatasetForDisk(machine.attrs, entry.name)
    ensures AtTarget(parse, machine, Resize(parse, machine, world, entry, answers).world, other)
  {
  }

  lemma {:induction false} RunReachesTargets(
    parse: SizeReader, machine: Machine, world: World, entries: seq<Entry>, answers: seq<Answers>)
    requires |answers| == |entries| && DistinctDisks(machine, entries)
    requires Run(parse, machine, world, entries, answers).error == None
    ensures forall i :: 0 <= i < |entries| ==>
      AtTarget(parse, machine, Run(parse, machine, world, entries, answers).world, entries[i])
  {
    if |entries| > 0 {
      var n := |entries| - 1;
      RunReachesTargets(parse, machine, world, Init(entries), Init(answers));
      var before := Run(parse, machine, world, Init(entries), Init(answers)).world;
      EntryReachesTarget(parse, machine, before, entries[n], answers[n]);
      forall i | 0 <= i < n
        ensures AtTarget(parse, machine, Run(parse, machine, world, entries, answers).world, entries[i])
      {
        assert AtTarget(parse, machine, before, Init(entries)[i]);
        EntryKeepsOthersAtTarget(parse, machine, before, entries[n], answers[n], entries[i]);
      }
    }
  }

  lemma {:induction false} RunAtTargetsSkips(
    parse: SizeReader, machine: Machine, world: World, entries: seq<Entry>, answers: seq<Answers>)
    requires |answers| == |entries|
    requires forall i :: 0 <= i < |entries| ==> answers[i].volsize && AtTarget(parse, machine, world, entries[i])
    ensures var end := Run(parse, machine, world, entries, answers);
      end.world == world && end.error == None && forall i :: 0 <= i < |end.disks| ==> end.disks[i].Skipped?
  {
    if |entries| > 0 {
      RunAtTargetsSkips(parse, machine, world, Init(entries), Init(answers));
    }
  }

  /** A run over different disks that succeeded, sent again, skips every disk: the target sizes were all reached. */
  lemma RunAgainChangesNothing(
    parse: SizeReader, machine: Machine, world: World, entries: seq<Entry>, answers: seq<Answers>, again: seq<Answers>)
    requires |answers| == |again| == |entries| && DistinctDisks(machine, entries)
    requires forall i :: 0 <= i < |again| ==> again[i].volsize
    requires Run(parse, machine, world, entries, answers).error == None
    ensures var end := Run(parse, machine, world, entries, answers).world;
      var second := Run(parse, machine, end, entries, again);
      second.world == end && second.error == None && forall i :: 0 <= i < |second.disks| ==> second.disks[i].Skipped?
  {
    RunReachesTargets(parse, machine, world, entries, answers);
    RunAtTargetsSkips(parse, machine, Run(parse, machine, world, entries, answers).world, entries, again);
  }

  // ---- The document ----

  /** Where the document has a size for a disk of the machine, it reads as the volume's size. */
  ghost predicate Honest(parse: SizeReader, machine: Machine, world: World) {
    forall name :: HonestDisk(parse, machine, world, name)
  }

  predicate HonestDisk(parse: SizeReader, machine: Machine, world: World, name: string) {
    match DatasetForDisk(machine.attrs, name)
    case None => true
    case Some(d) =>
      d in world.volumes && DocumentSize(world.document, name, d).Some? ==>
        parse(DocumentSize(world.document, name, d).value) == Some(world.volumes[d].size)
  }

  /** Different disks have different volumes, under different leaf names unless one is the boot disk. */
  ghost predicate SeparateDisks(machine: Machine) {
    forall a, b :: a != b ==> Separate(machine, a, b)
  }

  predicate Separate(machine: Machine, a: string, b: string) {
    match (DatasetForDisk(machine.attrs, a), DatasetForDisk(machine.attrs, b))
    case (Some(d), Some(e)) => d != e && (a != BOOT_DISK && b != BOOT_DISK ==> Leaf(d) != Leaf(e))
    case _ => true
  }

  lemma {:induction false} ListedAfterSet(disks: seq<DocumentDisk>, volumeName: string, size: string, other: string)
    ensures Listed(SetListed(disks, volumeName, size), other) ==
      if other == volumeName && Listed(disks, other).Some? then Some(size) else Listed(disks, other)
  {
    if |disks| > 0 {
      ListedAfterSet(disks[1..], volumeName, size, other);
    }
  }

  lemma DocumentAfterSet(
    document: Option<Disks>, name: string, dataset: string, size: string, other: string, otherDataset: string)
    requires name == other ==> dataset == otherDataset
    requires name != other && name != BOOT_DISK && other != BOOT_DISK ==> Leaf(dataset) != Leaf(otherDataset)
    ensures DocumentSize(SetDocumentDiskSize(document, name, dataset, size), other, otherDataset) ==
      var before := DocumentSize(document, other, otherDataset);
      if name == other && before.Some? then Some(size) else before
  {
    if document.Some? {
      ListedAfterSet(document.value.additional, Leaf(dataset), size, Leaf(otherDataset));
    }
  }

  lemma SavingKeepsHonestDisk(
    parse: SizeReader, machine: Machine, world: World, entry: Entry, dataset: string, target: nat, name: string)
    requires HonestDisk(parse, machine, world, name) && (name != entry.name ==> Separate(machine, name, entry.name))
    requires DatasetForDisk(machine.attrs, entry.name) == Some(dataset) && dataset in world.volumes
    requires parse(entry.size) == Some(target)
    ensures HonestDisk(parse, machine, Saved(SetVolume(world, dataset, target), entry, dataset), name)
  {
    match DatasetForDisk(machine.attrs, name)
    case None =>
    case Some(d) => DocumentAfterSet(world.document, entry.name, dataset, entry.size, name, d);
  }

  lemma EntryKeepsHonesty(parse: SizeReader, machine: Machine, world: World, entry: Entry, answers: Answers)
    requires SeparateDisks(machine) && Honest(parse, machine, world)
    requires Resize(parse, machine, world, entry, answers).result != Refused(DocumentFailed)
    ensures Honest(parse, machine, Resize(parse, machine, world, entry, answers).world)
  {
    var decision := Decide(parse, machine, world, entry, answers);
    if decision.Set? {
      var after := Saved(SetVolume(world, decision.dataset, decision.target), entry, decision.dataset);
      forall name ensures HonestDisk(parse, machine, after, name) {
        assert HonestDisk(parse, machine, world, name);
        assert name != entry.name ==> Separate(machine, name, entry.name);
        SavingKeepsHonestDisk(parse, machine, world, entry, decision.dataset, decision.target, name);
      }
    }
  }

  /** The document stays honest over a run whose document could always be saved. */
  lemma {:induction false} RunKeepsHonesty(
    parse: SizeReader, machine: Machine, world: World, entries: seq<Entry>, answers: seq<Answers>)
    requires |answers| == |entries| && SeparateDisks(machine) && Honest(parse, machine, world)
    requires Run(parse, machine, world, entries, answers).error != Some(DocumentFailed)
    ensures Honest(parse, machine, Run(parse, machine, world, entries, answers).world)
  {
    if |entries| > 0 {
      RunKeepsHonesty(parse, machine, world, Init(entries), Init(answers));
      var before := Run(parse, machine, world, Init(entries), Init(answers));
      if before.error == None {
        EntryKeepsHonesty(parse, machine, before.world, Last(entries), Last(answers));
      }
    }
  }
}
