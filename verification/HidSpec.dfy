/** What the HID report-descriptor parser computes: an interpreter for the items of a
    descriptor (USB Device Class Definition for HID 1.11, section 6.2.2), on plain sequences. */
module HidSpec {
  import opened Bytes

  datatype Error =
    | Successful
    | StackOverflow
    | StackUnderflow
    | UnexpectedEndCollection
    | UsageListOverflow
    | NoUnfilteredReportItems

  /** Item prefixes without their two size bits. */
  const PUSH := 0xA4
  const POP := 0xB4
  const USAGE_PAGE := 0x04
  const LOGICAL_MINIMUM := 0x14
  const LOGICAL_MAXIMUM := 0x24
  const PHYSICAL_MINIMUM := 0x34
  const PHYSICAL_MAXIMUM := 0x44
  const UNIT_EXPONENT := 0x54
  const UNIT := 0x64
  const REPORT_SIZE := 0x74
  const REPORT_ID := 0x84
  const REPORT_COUNT := 0x94
  const USAGE := 0x08
  const USAGE_MINIMUM := 0x18
  const USAGE_MAXIMUM := 0x28
  const INPUT := 0x80
  const OUTPUT := 0x90
  const COLLECTION := 0xA0
  const FEATURE := 0xB0
  const END_COLLECTION := 0xC0

  /** Usage pages and usages the parser looks at. */
  const PAGE_DESKTOP := 0x01
  const PAGE_BUTTON := 0x09
  const PAGE_VENDOR := 0xFF00
  const DESKTOP_USAGES: set<int> := {0x30, 0x31, 0x32, 0x35, 0x39, 0x90, 0x91, 0x92, 0x93}

  const IN := 0
  const OUT := 1
  const FEATURE_TYPE := 2

  const W8 := 0x100
  const W16 := 0x1_0000
  const W32 := 0x1_0000_0000

  datatype Attributes = Attributes(
    bitSize: nat, page: nat, usage: nat, unitType: nat, unitExponent: nat,
    logicalMin: nat, logicalMax: nat, physicalMin: nat, physicalMax: nat)

  /** An entry of the global-state stack. */
  datatype Global = Global(attrs: Attributes, count: nat, id: nat)

  /** A report: its ID and its size in bits so far, for each of the three item types. */
  datatype Report = Report(id: nat, bits: seq<nat>)

  datatype Path = Path(kind: nat, page: nat, usage: nat)

  /** A stored report item. */
  datatype Item = Item(offset: nat, kind: nat, flags: nat, id: nat, attrs: Attributes)

  /** A field of a report, stored or not: the report it was laid out in and its bit range. */
  datatype Field = Field(slot: nat, kind: nat, offset: nat, size: nat, id: nat, stored: bool)

  /** What a parse has established. `total` and `deviceReports` count modulo 256; `fields` is
      the layout of everything seen so far and not part of the program's state. */
  datatype Found = Found(
    total: nat, deviceReports: nat, largest: nat, usingIds: bool,
    ps3: bool, ps4: bool, ps5: bool, items: seq<Item>, fields: seq<Field>)

  /** The parser: global-state stack, reports with the current one, local usages, open
      collections (outermost first) with the usage last seen by an outermost one. */
  datatype Parser = Parser(
    states: seq<Global>, reports: seq<Report>, cur: nat,
    usages: seq<nat>, usageMin: nat, usageMax: nat,
    paths: seq<Path>, rootUsage: nat, found: Found)

  const NO_ATTRS := Attributes(0, 0, 0, 0, 0, 0, 0, 0, 0)
  const NEW_REPORT := Report(0, [0, 0, 0])

  const START := Parser([Global(NO_ATTRS, 0, 0)], [NEW_REPORT], 0, [], 0, 0, [], 0,
                        Found(0, 1, 0, false, false, false, false, [], []))

  /** Limits of the two fixed-size stacks. */
  datatype Limits = Limits(states: nat, usages: nat)

  predicate WfReport(r: Report) {
    |r.bits| == 3 && forall k :: 0 <= k < 3 ==> r.bits[k] < W16
  }

  predicate Wf(s: Parser) {
    && |s.states| > 0
    && s.cur < |s.reports|
    && forall i :: 0 <= i < |s.reports| ==> WfReport(s.reports[i])
  }

  function Top(s: Parser): Global
    requires Wf(s)
  {
    s.states[|s.states| - 1]
  }

  function SetTop(s: Parser, g: Global): Parser
    requires Wf(s)
  {
    s.(states := s.states[|s.states| - 1 := g])
  }

  function SetAttrs(s: Parser, a: Attributes): Parser
    requires Wf(s)
  {
    SetTop(s, Top(s).(attrs := a))
  }

  /** Index of the report with an ID, if there is one. */
  function FindReport(reports: seq<Report>, id: nat): (i: nat)
    ensures i <= |reports|
    ensures i < |reports| ==> reports[i].id == id
    ensures forall k :: 0 <= k < i ==> reports[k].id != id
  {
    if reports == [] || reports[0].id == id then 0 else 1 + FindReport(reports[1..], id)
  }

  /** A REPORT ID item: the first one names the report begun without an ID. */
  function SelectReport(s: Parser, id: nat): Parser
    requires Wf(s)
  {
    var s1 := SetTop(s, Top(s).(id := id));
    var k := FindReport(s.reports, id);
    var s2 :=
      if !s.found.usingIds then s1
      else if k < |s.reports| then s1.(cur := k)
      else s1.(reports := s.reports + [NEW_REPORT], cur := |s.reports|,
               found := s.found.(deviceReports := (s.found.deviceReports + 1) % W8));
    s2.(reports := s2.reports[s2.cur := s2.reports[s2.cur].(id := id)],
        found := s2.found.(usingIds := true))
  }

  /** Takes the usage for the next collection or field: from the list, else from the range, else
      the one given. */
  function NextUsage(s: Parser, otherwise: nat): (r: (Parser, nat))
    ensures r.0 == s.(usages := r.0.usages, usageMin := r.0.usageMin)
  {
    if s.usages != [] then (s.(usages := s.usages[1..]), s.usages[0])
    else if s.usageMin <= s.usageMax then (s.(usageMin := (s.usageMin + 1) % W32), s.usageMin % W16)
    else (s, otherwise)
  }

  function OpenCollection(s: Parser, data: nat): Parser
    requires Wf(s)
  {
    var (s1, usage) := NextUsage(s, if s.paths == [] then s.rootUsage else 0);
    s1.(paths := s.paths + [Path(data % W8, Top(s).attrs.page, usage)],
        rootUsage := if s.paths == [] then usage else s.rootUsage)
  }

  /** The fields that are kept. */
  predicate Keeps(item: Item) {
    && item.flags % 2 == 0
    && item.kind == IN
    && (item.attrs.page == PAGE_BUTTON || (item.attrs.page == PAGE_DESKTOP && item.attrs.usage in DESKTOP_USAGES))
  }

  function AddBits(r: Report, kind: nat, size: nat): Report
    requires WfReport(r) && kind < 3
  {
    r.(bits := r.bits[kind := (r.bits[kind] + size) % W16])
  }

  function NoteVendor(f: Found, kind: nat, a: Attributes): (r: Found)
    ensures r == f.(ps3 := r.ps3, ps4 := r.ps4, ps5 := r.ps5)
  {
    if kind == FEATURE_TYPE && a.page == PAGE_VENDOR then
      f.(ps5 := f.ps5 || a.usage == 0x2821, ps4 := f.ps4 || a.usage == 0x2721, ps3 := f.ps3 || a.usage == 0x2621)
    else f
  }

  /** One field of an INPUT, OUTPUT or FEATURE item. */
  function AddField(s: Parser, kind: nat, data: nat): Parser
    requires Wf(s) && kind < 3
  {
    var g := Top(s);
    var (s1, usage) := NextUsage(s, g.attrs.usage);
    var r := s.reports[s.cur];
    var item := Item(r.bits[kind], kind, data % W16, g.id, g.attrs.(usage := usage));
    var r' := AddBits(r, kind, g.attrs.bitSize);
    var f := NoteVendor(s.found.(largest := Max(s.found.largest, r'.bits[kind])), kind, item.attrs);
    var f' := if Keeps(item) then f.(items := f.items + [item], total := (f.total + 1) % W8) else f;
    s1.(reports := s.reports[s.cur := r'],
        found := f'.(fields := f'.fields + [Field(s.cur, kind, item.offset, g.attrs.bitSize, g.id, Keeps(item))]))
  }

  function AddFields(s: Parser, kind: nat, data: nat, n: nat): (r: Parser)
    requires Wf(s) && kind < 3
    ensures Wf(r) && Top(r) == Top(s)
  {
    if n == 0 then s else AddField(AddFields(s, kind, data, n - 1), kind, data)
  }

  /** An error keeps the number of items stored before it. */
  datatype Outcome = Ok(s: Parser) | Err(error: Error, total: nat)

  function KindOf(tag: nat): nat {
    if tag == INPUT then IN else if tag == OUTPUT then OUT else FEATURE_TYPE
  }

  function EndOfMain(s: Parser): Parser {
    s.(usages := [], usageMin := 0, usageMax := 0)
  }

  predicate IsMain(tag: nat) {
    tag / 4 % 4 == 0
  }

  /** A global item other than PUSH, POP and REPORT ID. */
  function SetGlobal(s: Parser, tag: nat, data: nat): Parser
    requires Wf(s)
  {
    var a := Top(s).attrs;
    if tag == USAGE_PAGE then SetAttrs(s, a.(page := data % W16))
    else if tag == LOGICAL_MINIMUM then SetAttrs(s, a.(logicalMin := data))
    else if tag == LOGICAL_MAXIMUM then SetAttrs(s, a.(logicalMax := data))
    else if tag == PHYSICAL_MINIMUM then SetAttrs(s, a.(physicalMin := data))
    else if tag == PHYSICAL_MAXIMUM then SetAttrs(s, a.(physicalMax := data))
    else if tag == UNIT_EXPONENT then SetAttrs(s, a.(unitExponent := data % W8))
    else if tag == UNIT then SetAttrs(s, a.(unitType := data))
    else if tag == REPORT_SIZE then SetAttrs(s, a.(bitSize := data % W8))
    else if tag == REPORT_COUNT then SetTop(s, Top(s).(count := data % W8))
    else s
  }

  function PushState(lim: Limits, s: Parser): Outcome
    requires Wf(s)
  {
    if |s.states| >= lim.states then Err(StackOverflow, s.found.total) else Ok(s.(states := s.states + [Top(s)]))
  }

  function PopState(s: Parser): Outcome
    requires Wf(s)
  {
    if |s.states| == 1 then Err(StackUnderflow, s.found.total) else Ok(s.(states := s.states[..|s.states| - 1]))
  }

  function AddUsage(lim: Limits, s: Parser, wide: bool, data: nat): Outcome
    requires Wf(s)
  {
    if |s.usages| >= lim.usages then Err(UsageListOverflow, s.found.total)
    else
      var s1 := if wide then SetAttrs(s, Top(s).attrs.(page := data / W16 % W16)) else s;
      Ok(s1.(usages := s.usages + [data % W16]))
  }

  function CloseCollection(s: Parser): Outcome {
    if s.paths == [] then Err(UnexpectedEndCollection, s.found.total) else Ok(s.(paths := s.paths[..|s.paths| - 1]))
  }

  /** What an item does, up to the reset that follows a main item. */
  function Act(lim: Limits, s: Parser, tag: nat, wide: bool, data: nat): (o: Outcome)
    requires Wf(s)
    ensures o.Ok? ==> Wf(o.s)
  {
    if tag == PUSH then PushState(lim, s)
    else if tag == POP then PopState(s)
    else if tag == REPORT_ID then Ok(SelectReport(s, data % W8))
    else if tag == USAGE then AddUsage(lim, s, wide, data)
    else if tag == USAGE_MINIMUM then Ok(s.(usageMin := data))
    else if tag == USAGE_MAXIMUM then Ok(s.(usageMax := data))
    else if tag == COLLECTION then Ok(OpenCollection(s, data))
    else if tag == END_COLLECTION then CloseCollection(s)
    else if tag == INPUT || tag == OUTPUT || tag == FEATURE then
      Ok(AddFields(s, KindOf(tag), data, Top(s).count))
    else Ok(SetGlobal(s, tag, data))
  }

  /** One item: its tag, whether it has four data bytes, and its data. */
  function Step(lim: Limits, s: Parser, tag: nat, wide: bool, data: nat): (o: Outcome)
    requires Wf(s)
    ensures o.Ok? ==> Wf(o.s)
  {
    var o := Act(lim, s, tag, wide, data);
    if o.Ok? && IsMain(tag) then Ok(EndOfMain(o.s)) else o
  }

  /** Number of data bytes of an item. */
  function DataLen(prefix: byte): (n: nat)
    ensures n <= 2 || n == 4
  {
    if prefix % 4 == 3 then 4 else prefix % 4
  }

  /** The little-endian number in a byte string. */
  function Number(s: seq<byte>): nat {
    if s == [] then 0 else (s[0] as int) + 256 * Number(s[1..])
  }

  /** Every item's data is there. */
  predicate WellFormed(d: seq<byte>)
    decreases |d|
  {
    d == [] || (1 + DataLen(d[0]) <= |d| && WellFormed(d[1 + DataLen(d[0])..]))
  }

  /** The items of a well-formed descriptor, one after the other. */
  function Interpret(lim: Limits, s: Parser, d: seq<byte>): (o: Outcome)
    requires Wf(s) && WellFormed(d)
    ensures o.Ok? ==> Wf(o.s)
    decreases |d|
  {
    if d == [] then Ok(s)
    else
      var n := DataLen(d[0]);
      match Step(lim, s, d[0] - d[0] % 4, n == 4, Number(d[1..1 + n]))
      case Err(e, total) => Err(e, total)
      case Ok(s') => Interpret(lim, s', d[1 + n..])
  }

  /** The result of a parse. That nothing was stored is reported even after another error. */
  function Parse(lim: Limits, d: seq<byte>): Outcome
    requires WellFormed(d)
  {
    match Interpret(lim, START, d)
    case Err(e, total) => Err(if total == 0 then NoUnfilteredReportItems else e, total)
    case Ok(s) => if s.found.total == 0 then Err(NoUnfilteredReportItems, 0) else Ok(s)
  }

  // What a parse needs of the pools

  /** Free nodes of the four pools: report sizes, collections, results and items. */
  datatype Nodes = Nodes(sizes: int, paths: int, infos: int, items: int)

  /** The lists of a parser fit the free nodes. One node is taken even when no collection is open. */
  predicate Room(n: Nodes, s: Parser) {
    |s.reports| <= n.sizes && Max(|s.paths|, 1) <= n.paths && |s.found.items| <= n.items
  }

  /** They do after every item of a descriptor, up to an error. */
  predicate Enough(lim: Limits, n: Nodes, s: Parser, d: seq<byte>)
    requires Wf(s) && WellFormed(d)
    decreases |d|
  {
    Room(n, s) &&
    (d == [] ||
     var k := DataLen(d[0]);
     var o := Step(lim, s, d[0] - d[0] % 4, k == 4, Number(d[1..1 + k]));
     o.Ok? ==> Enough(lim, n, o.s, d[1 + k..]))
  }

  /** The free nodes suffice for a descriptor. */
  predicate Suffices(lim: Limits, n: Nodes, d: seq<byte>)
    requires WellFormed(d)
  {
    n.infos >= 1 && Enough(lim, n, START, d)
  }

  /** Fields only ever add items. */
  lemma {:induction false} FieldsGrow(s: Parser, kind: nat, data: nat, i: nat, n: nat)
    requires Wf(s) && kind < 3 && i <= n
    ensures |AddFields(s, kind, data, i).found.items| <= |AddFields(s, kind, data, n).found.items|
    decreases n
  {
    hide AddField;
    if i < n {
      FieldsGrow(s, kind, data, i, n - 1);
      FieldGrows(AddFields(s, kind, data, n - 1), kind, data);
    }
  }

  lemma FieldGrows(s: Parser, kind: nat, data: nat)
    requires Wf(s) && kind < 3
    ensures |s.found.items| <= |AddField(s, kind, data).found.items|
  {
    hide NextUsage, NoteVendor, Keeps, AddBits;
  }
}
