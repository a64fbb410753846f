/** What a parsed descriptor says, told from its items alone: the attributes of a field are the last ones given
    that are still in force, its usage is that of its position in the usages listed, and a parse stops at the
    first item that finds no room or no match. */
module HidMeaning {
  import opened Bytes
  import opened HidSpec

  /** An item of a descriptor. */
  datatype Token = Token(tag: nat, wide: bool, data: nat)

  /** Prefixes of main, global and local items by their tags, section 6.2.2 of the HID specification. */
  function MainItem(tag: nat): nat {
    16 * tag
  }

  function GlobalItem(tag: nat): nat {
    16 * tag + 4
  }

  function LocalItem(tag: nat): nat {
    16 * tag + 8
  }

  /** Number of data bytes, from the two low bits of the prefix. */
  function DataSize(prefix: byte): (n: nat)
    ensures n == DataLen(prefix)
  {
    match prefix % 4
    case 0 => 0
    case 1 => 1
    case 2 => 2
    case _ => 4
  }

  function TokenAt(d: seq<byte>): (t: Token)
    requires d != [] && 1 + DataSize(d[0]) <= |d|
  {
    Token(d[0] - d[0] % 4, DataSize(d[0]) == 4, Number(d[1..1 + DataSize(d[0])]))
  }

  function Tokens(d: seq<byte>): seq<Token>
    requires WellFormed(d)
    decreases |d|
  {
    if d == [] then [] else [TokenAt(d)] + Tokens(d[1 + DataSize(d[0])..])
  }

  // Global items

  datatype Attr =
    | Page | LogicalMin | LogicalMax | PhysicalMin | PhysicalMax | UnitExponent | UnitType | BitSize | Count | Id

  /** What an item says about an attribute, in the width the attribute has. A usage of four bytes names its
      page. */
  function Given(t: Token, a: Attr): Option<nat> {
    match a
    case Page =>
      if t.tag == GlobalItem(0) then Some(t.data % 0x1_0000)
      else if t.tag == LocalItem(0) && t.wide then Some(t.data / 0x1_0000 % 0x1_0000) else None
    case LogicalMin => if t.tag == GlobalItem(1) then Some(t.data) else None
    case LogicalMax => if t.tag == GlobalItem(2) then Some(t.data) else None
    case PhysicalMin => if t.tag == GlobalItem(3) then Some(t.data) else None
    case PhysicalMax => if t.tag == GlobalItem(4) then Some(t.data) else None
    case UnitExponent => if t.tag == GlobalItem(5) then Some(t.data % 0x100) else None
    case UnitType => if t.tag == GlobalItem(6) then Some(t.data) else None
    case BitSize => if t.tag == GlobalItem(7) then Some(t.data % 0x100) else None
    case Id => if t.tag == GlobalItem(8) then Some(t.data % 0x100) else None
    case Count => if t.tag == GlobalItem(9) then Some(t.data % 0x100) else None
  }

  /** The value in force behind some items, at a depth of the stack: the last one given, looking back over
      whatever stands between a PUSH and its POP; 0 if there is none. */
  function InForce(ts: seq<Token>, a: Attr, depth: nat): nat {
    if ts == [] then 0
    else
      var before, t := ts[..|ts| - 1], ts[|ts| - 1];
      if t.tag == GlobalItem(11) then InForce(before, a, depth + 1)
      else if t.tag == GlobalItem(10) then InForce(before, a, if depth == 0 then 0 else depth - 1)
      else if depth == 0 && Given(t, a).Some? then Given(t, a).value
      else InForce(before, a, depth)
  }

  /** How many states are saved. */
  function Saved(ts: seq<Token>): int {
    if ts == [] then 0
    else
      var t := ts[|ts| - 1];
      Saved(ts[..|ts| - 1]) + if t.tag == GlobalItem(10) then 1 else if t.tag == GlobalItem(11) then -1 else 0
  }

  // Local items

  /** The usages listed since the last main item. */
  function Listed(ts: seq<Token>): seq<nat> {
    if ts == [] || ts[|ts| - 1].tag / 4 % 4 == 0 then []
    else
      var t := ts[|ts| - 1];
      Listed(ts[..|ts| - 1]) + if t.tag == LocalItem(0) then [t.data % 0x1_0000] else []
  }

  /** The last data of a local item since the last main item, 0 if there is none. */
  function Local(ts: seq<Token>, tag: nat): nat {
    if ts == [] || ts[|ts| - 1].tag / 4 % 4 == 0 then 0
    else
      var t := ts[|ts| - 1];
      if t.tag == LocalItem(tag) then t.data else Local(ts[..|ts| - 1], tag)
  }

  /** The usage of field number `k`: those listed, then those of the range, which has no end if it goes up to
      the last 32-bit number, and then none. */
  function UsageOf(listed: seq<nat>, lo: nat, hi: nat, k: nat): Option<nat> {
    if k < |listed| then Some(listed[k])
    else
      var j := k - |listed|;
      if lo <= hi && (lo + j <= hi || hi == 0xFFFF_FFFF) then Some((lo + j) % 0x1_0000) else None
  }

  // Fields and collections

  /** A field as the descriptor says it is. */
  datatype Said = Said(kind: nat, flags: nat, id: nat, attrs: Attributes)

  /** The attributes behind some items, for a field with a given usage. */
  function AttributesOf(ts: seq<Token>, usage: nat): Attributes {
    Attributes(
      InForce(ts, BitSize, 0), InForce(ts, Page, 0), usage, InForce(ts, UnitType, 0), InForce(ts, UnitExponent, 0),
      InForce(ts, LogicalMin, 0), InForce(ts, LogicalMax, 0), InForce(ts, PhysicalMin, 0), InForce(ts, PhysicalMax, 0))
  }

  /** Field number `k` of a main item that stands behind `ts`. */
  function FieldSaid(ts: seq<Token>, t: Token, k: nat): Said {
    var usage := UsageOf(Listed(ts), Local(ts, 1), Local(ts, 2), k);
    Said(if t.tag == MainItem(8) then 0 else if t.tag == MainItem(9) then 1 else 2,
         t.data % 0x1_0000, InForce(ts, Id, 0), AttributesOf(ts, if usage.Some? then usage.value else 0))
  }

  /** The first `n` fields of a main item. */
  function FieldsSaid(ts: seq<Token>, t: Token, n: nat): seq<Said> {
    seq(n, k requires 0 <= k < n => FieldSaid(ts, t, k))
  }

  predicate IsField(t: Token) {
    t.tag == MainItem(8) || t.tag == MainItem(9) || t.tag == MainItem(11)
  }

  /** All fields of a descriptor, in its order. */
  function AllSaid(ts: seq<Token>): seq<Said> {
    if ts == [] then []
    else
      var before, t := ts[..|ts| - 1], ts[|ts| - 1];
      AllSaid(before) + if IsField(t) then FieldsSaid(before, t, InForce(before, Count, 0)) else []
  }

  const X := 0x30
  const Y := 0x31
  const Z := 0x32
  const RZ := 0x35
  const HAT_SWITCH := 0x39
  const DPAD_UP := 0x90
  const DPAD_LEFT := 0x93

  /** The fields a game pad's driver wants, among inputs that are not constant: on the button page (9) all, on the
      desktop page (1) the axes and the hat or directional pad. */
  predicate IsWanted(f: Said) {
    && f.kind == 0 && f.flags % 2 == 0
    && var u := f.attrs.usage;
       || f.attrs.page == 0x09
       || (f.attrs.page == 0x01 &&
           (u == X || u == Y || u == Z || u == RZ || u == HAT_SWITCH || DPAD_UP <= u <= DPAD_LEFT))
  }

  function Wanted(fs: seq<Said>): seq<Said> {
    if fs == [] then []
    else Wanted(fs[..|fs| - 1]) + if IsWanted(fs[|fs| - 1]) then [fs[|fs| - 1]] else []
  }

  /** The first usage behind some items, if there is one. */
  function FirstSaid(ts: seq<Token>): Option<nat> {
    UsageOf(Listed(ts), Local(ts, 1), Local(ts, 2), 0)
  }

  /** The usage seen last by an outermost collection, which keeps it when it closes. */
  function RootUsage(ts: seq<Token>): nat {
    if ts == [] then 0
    else
      var before, t := ts[..|ts| - 1], ts[|ts| - 1];
      if t.tag == MainItem(10) && OpenCollections(before) == [] && FirstSaid(before).Some? then FirstSaid(before).value
      else RootUsage(before)
  }

  /** The open collections, outermost first, each with the first usage listed before it. */
  function OpenCollections(ts: seq<Token>): seq<Path> {
    if ts == [] then []
    else
      var before, t := ts[..|ts| - 1], ts[|ts| - 1];
      var open := OpenCollections(before);
      if t.tag == MainItem(10) then
        var usage := if FirstSaid(before).Some? then FirstSaid(before).value else if open == [] then RootUsage(before) else 0;
        open + [Path(t.data % 0x100, InForce(before, Page, 0), usage)]
      else if t.tag == MainItem(12) && open != [] then open[..|open| - 1]
      else open
  }

  /** The report IDs named. */
  function IdsOf(ts: seq<Token>): set<nat> {
    set i | 0 <= i < |ts| && ts[i].tag == GlobalItem(8) :: ts[i].data % 0x100
  }

  /** The error that an item meets behind others. */
  function Fault(lim: Limits, ts: seq<Token>, t: Token): Option<Error> {
    if t.tag == GlobalItem(10) && Saved(ts) + 1 >= lim.states then Some(StackOverflow)
    else if t.tag == GlobalItem(11) && Saved(ts) == 0 then Some(StackUnderflow)
    else if t.tag == LocalItem(0) && |Listed(ts)| >= lim.usages then Some(UsageListOverflow)
    else if t.tag == MainItem(12) && OpenCollections(ts) == [] then Some(UnexpectedEndCollection)
    else None
  }

  // The parser tells the same

  function AttrOf(g: Global, a: Attr): nat {
    match a
    case Page => g.attrs.page
    case LogicalMin => g.attrs.logicalMin
    case LogicalMax => g.attrs.logicalMax
    case PhysicalMin => g.attrs.physicalMin
    case PhysicalMax => g.attrs.physicalMax
    case UnitExponent => g.attrs.unitExponent
    case UnitType => g.attrs.unitType
    case BitSize => g.attrs.bitSize
    case Count => g.count
    case Id => g.id
  }

  /** Every state of the stack holds what is in force at its depth; a usage of its own it never has. */
  ghost predicate StatesTold(s: Parser, ts: seq<Token>) {
    && |s.states| == Saved(ts) + 1 > 0
    && (forall j :: 0 <= j < |s.states| ==> FromTop(s, j).attrs.usage == 0)
    && forall j, a :: 0 <= j < |s.states| ==> AttrOf(FromTop(s, j), a) == InForce(ts, a, j)
  }

  function FromTop(s: Parser, depth: nat): Global
    requires depth < |s.states|
  {
    s.states[|s.states| - 1 - depth]
  }

  ghost predicate LocalsTold(s: Parser, ts: seq<Token>) {
    && s.usages == Listed(ts) && s.usageMin == Local(ts, 1) && s.usageMax == Local(ts, 2)
    && s.usageMin < W32 && s.usageMax < W32
  }

  ghost predicate PathsTold(s: Parser, ts: seq<Token>) {
    s.paths == OpenCollections(ts) && s.rootUsage == RootUsage(ts)
  }

  function SaidOf(item: Item): Said {
    Said(item.kind, item.flags, item.id, item.attrs)
  }

  function SaidItems(items: seq<Item>): (r: seq<Said>)
    ensures |r| == |items| && forall i :: 0 <= i < |items| ==> r[i] == SaidOf(items[i])
  {
    seq(|items|, i requires 0 <= i < |items| => SaidOf(items[i]))
  }

  /** The Sony usages in feature reports. */
  ghost predicate FeatureSaid(fs: seq<Said>, usage: nat) {
    exists i :: 0 <= i < |fs| && fs[i].kind == 2 && fs[i].attrs.page == 0xFF00 && fs[i].attrs.usage == usage
  }

  /** The fields laid out are those said. */
  ghost predicate LaidTold(fields: seq<Field>, fs: seq<Said>) {
    && |fields| == |fs|
    && forall i :: 0 <= i < |fs| ==>
         && fields[i].kind == fs[i].kind && fields[i].id == fs[i].id
         && fields[i].size == fs[i].attrs.bitSize && fields[i].stored == IsWanted(fs[i])
  }

  /** The items stored are those wanted, in their order. */
  ghost predicate StoredTold(f: Found, fs: seq<Said>) {
    SaidItems(f.items) == Wanted(fs) && f.total == |f.items| % 0x100
  }

  ghost predicate SonyTold(f: Found, fs: seq<Said>) {
    f.ps3 == FeatureSaid(fs, 0x2621) && f.ps4 == FeatureSaid(fs, 0x2721) && f.ps5 == FeatureSaid(fs, 0x2821)
  }

  ghost predicate FieldsTold(f: Found, fs: seq<Said>) {
    LaidTold(f.fields, fs) && StoredTold(f, fs) && SonyTold(f, fs)
  }

  function IdsIn(reports: seq<Report>): set<nat> {
    set i | 0 <= i < |reports| :: reports[i].id
  }

  ghost predicate ReportsTold(s: Parser, ts: seq<Token>) {
    && s.found.deviceReports == |s.reports| % 0x100
    && (s.found.usingIds <==> IdsOf(ts) != {})
    && (s.found.usingIds ==> IdsOf(ts) == IdsIn(s.reports))
    && (!s.found.usingIds ==> |s.reports| == 1)
  }

  /** A state of the parser behind some items is as the items say. */
  ghost predicate Told(s: Parser, ts: seq<Token>) {
    && Wf(s) && StatesTold(s, ts) && LocalsTold(s, ts) && PathsTold(s, ts)
    && FieldsTold(s.found, AllSaid(ts)) && ReportsTold(s, ts)
  }

  lemma Front(ts: seq<Token>, t: Token)
    ensures (ts + [t])[..|ts + [t]| - 1] == ts && (ts + [t])[|ts + [t]| - 1] == t
  {
  }

  lemma StartTold()
    ensures Told(START, [])
  {
    StartStates();
    StartFields();
    assert LocalsTold(START, []) && PathsTold(START, []) && ReportsTold(START, []);
    hide StatesTold, FieldsTold, LocalsTold, PathsTold, ReportsTold;
  }

  lemma StartStates()
    ensures StatesTold(START, [])
  {
    assert FromTop(START, 0) == Global(NO_ATTRS, 0, 0);
  }

  lemma StartFields()
    ensures FieldsTold(START.found, AllSaid([]))
  {
    assert SaidItems([]) == [];
  }

  // One item, part by part

  lemma AddFieldFrame(s: Parser, kind: nat, data: nat)
    requires Wf(s) && kind < 3
    ensures var r := AddField(s, kind, data);
            && Wf(r) && r.states == s.states && r.paths == s.paths && r.rootUsage == s.rootUsage && r.usageMax == s.usageMax
            && |r.reports| == |s.reports| && (forall i :: 0 <= i < |s.reports| ==> r.reports[i].id == s.reports[i].id)
            && r.found.deviceReports == s.found.deviceReports && r.found.usingIds == s.found.usingIds
  {
    hide Keeps, NoteVendor;
  }

  lemma {:induction false} AddFieldsFrame(s: Parser, kind: nat, data: nat, n: nat)
    requires Wf(s) && kind < 3
    ensures var r := AddFields(s, kind, data, n);
            && Wf(r) && r.states == s.states && r.paths == s.paths && r.rootUsage == s.rootUsage && r.usageMax == s.usageMax
            && |r.reports| == |s.reports| && (forall i :: 0 <= i < |s.reports| ==> r.reports[i].id == s.reports[i].id)
            && r.found.deviceReports == s.found.deviceReports && r.found.usingIds == s.found.usingIds
  {
    hide AddField;
    if n > 0 {
      AddFieldsFrame(s, kind, data, n - 1);
      AddFieldFrame(AddFields(s, kind, data, n - 1), kind, data);
    }
  }

  /** The topmost state after an item that says `t`. */
  ghost predicate TopSays(s: Parser, s': Parser, t: Token, a: Attr)
    requires Wf(s)
  {
    && Wf(s') && s'.states == s.states[|s.states| - 1 := Top(s')]
    && Top(s').attrs.usage == Top(s).attrs.usage
    && AttrOf(Top(s'), a) == if Given(t, a).Some? then Given(t, a).value else AttrOf(Top(s), a)
  }

  lemma GlobalSays(s: Parser, t: Token, a: Attr)
    requires Wf(s) && t.tag != REPORT_ID && t.tag != USAGE
    ensures TopSays(s, SetGlobal(s, t.tag, t.data), t, a)
  {
  }

  lemma UsageSays(lim: Limits, s: Parser, t: Token, a: Attr)
    requires Wf(s) && t.tag == USAGE && |s.usages| < lim.usages
    ensures TopSays(s, AddUsage(lim, s, t.wide, t.data).s, t, a)
  {
  }

  lemma ReportIdSays(s: Parser, t: Token, a: Attr)
    requires Wf(s) && t.tag == REPORT_ID
    ensures TopSays(s, SelectReport(s, t.data % W8), t, a)
  {
    hide FindReport;
  }

  lemma SameSays(s: Parser, s': Parser, t: Token, a: Attr)
    requires Wf(s) && Wf(s') && s'.states == s.states && Given(t, a).None?
    ensures TopSays(s, s', t, a)
  {
  }

  lemma ResetSays(s: Parser, s': Parser, t: Token, a: Attr)
    requires Wf(s) && TopSays(s, s', t, a)
    ensures TopSays(s, EndOfMain(s'), t, a)
  {
  }

  lemma FieldGives(t: Token, a: Attr)
    requires IsField(t)
    ensures Given(t, a).None?
  {
  }

  lemma FieldSays(s: Parser, t: Token, a: Attr)
    requires Wf(s) && IsField(t)
    ensures TopSays(s, AddFields(s, KindOf(t.tag), t.data, Top(s).count), t, a)
  {
    hide TopSays, AddFields, Given;
    FieldGives(t, a);
    AddFieldsFrame(s, KindOf(t.tag), t.data, Top(s).count);
    SameSays(s, AddFields(s, KindOf(t.tag), t.data, Top(s).count), t, a);
  }

  lemma OpenSays(s: Parser, t: Token, a: Attr)
    requires Wf(s) && t.tag == COLLECTION
    ensures TopSays(s, OpenCollection(s, t.data), t, a)
  {
    hide TopSays, NextUsage;
    SameSays(s, OpenCollection(s, t.data), t, a);
  }

  lemma LocalSays(s: Parser, s': Parser, t: Token, a: Attr)
    requires Wf(s) && t.tag in {USAGE_MINIMUM, USAGE_MAXIMUM, END_COLLECTION}
    requires s'.states == s.states && s'.reports == s.reports && s'.cur == s.cur
    ensures TopSays(s, s', t, a)
  {
    hide TopSays;
    SameSays(s, s', t, a);
  }

  /** Apart from PUSH and POP an item changes the topmost state only, by what it says. */
  lemma TopStep(lim: Limits, s: Parser, t: Token, a: Attr)
    requires Wf(s) && t.tag != PUSH && t.tag != POP
    ensures var o := Step(lim, s, t.tag, t.wide, t.data); o.Ok? ==> TopSays(s, o.s, t, a)
  {
    hide TopSays, AddFields, SelectReport, OpenCollection, SetGlobal, Given, EndOfMain;
    var o := Act(lim, s, t.tag, t.wide, t.data);
    if o.Ok? {
      if IsField(t) {
        FieldSays(s, t, a);
      } else if t.tag == REPORT_ID {
        ReportIdSays(s, t, a);
      } else if t.tag == USAGE {
        UsageSays(lim, s, t, a);
      } else if t.tag == COLLECTION {
        OpenSays(s, t, a);
      } else if t.tag == USAGE_MINIMUM || t.tag == USAGE_MAXIMUM || t.tag == END_COLLECTION {
        LocalSays(s, o.s, t, a);
      } else {
        GlobalSays(s, t, a);
      }
      hide Act, Wf;
      ResetSays(s, o.s, t, a);
    }
  }

  lemma StackStep(lim: Limits, s: Parser, t: Token)
    requires Wf(s) && (t.tag == PUSH || t.tag == POP)
    ensures var o := Step(lim, s, t.tag, t.wide, t.data);
            && (o.Err? <==> if t.tag == PUSH then |s.states| >= lim.states else |s.states| == 1)
            && (o.Err? ==> o.error == (if t.tag == PUSH then StackOverflow else StackUnderflow) && o.total == s.found.total)
            && (o.Ok? ==> o.s.states == if t.tag == PUSH then s.states + [Top(s)] else s.states[..|s.states| - 1])
  {
    hide AddFields, FindReport;
  }

  lemma StackTold(s: Parser, s': Parser, ts: seq<Token>, t: Token)
    requires Wf(s) && StatesTold(s, ts) && (t.tag == PUSH || t.tag == POP)
    requires t.tag == POP ==> |s.states| > 1
    requires s'.states == if t.tag == PUSH then s.states + [Top(s)] else s.states[..|s.states| - 1]
    ensures StatesTold(s', ts + [t])
  {
    hide AttrOf, Given;
    Front(ts, t);
    assert Saved(ts + [t]) == Saved(ts) + if t.tag == PUSH then 1 else -1;
    forall j | 0 <= j < |s'.states|
      ensures var k := if t.tag == POP then j + 1 else if j == 0 then 0 else j - 1;
              k < |s.states| && FromTop(s', j) == FromTop(s, k)
    {
    }
    forall j, a | 0 <= j < |s'.states|
      ensures AttrOf(FromTop(s', j), a) == InForce(ts + [t], a, j)
    {
      var k := if t.tag == POP then j + 1 else if j == 0 then 0 else j - 1;
      assert AttrOf(FromTop(s, k), a) == InForce(ts, a, k);
      assert InForce(ts + [t], a, j) == InForce(ts, a, k);
    }
  }

  lemma TopTold(s: Parser, s': Parser, ts: seq<Token>, t: Token)
    requires Wf(s) && StatesTold(s, ts) && t.tag != PUSH && t.tag != POP
    requires forall a :: TopSays(s, s', t, a)
    ensures StatesTold(s', ts + [t])
  {
    hide AttrOf, Given;
    Front(ts, t);
    assert TopSays(s, s', t, Id);
    assert FromTop(s, 0) == Top(s) && FromTop(s, 0).attrs.usage == 0;
    assert forall j :: 0 <= j < |s'.states| ==> FromTop(s', j) == if j == 0 then Top(s') else FromTop(s, j);
    forall j, a | 0 <= j < |s'.states|
      ensures AttrOf(FromTop(s', j), a) == InForce(ts + [t], a, j)
    {
      assert TopSays(s, s', t, a);
      assert AttrOf(FromTop(s, j), a) == InForce(ts, a, j);
    }
  }

  lemma StatesStep(lim: Limits, s: Parser, ts: seq<Token>, t: Token)
    requires Wf(s) && StatesTold(s, ts)
    ensures var o := Step(lim, s, t.tag, t.wide, t.data); o.Ok? ==> StatesTold(o.s, ts + [t])
  {
    hide StatesTold, TopSays;
    var o := Step(lim, s, t.tag, t.wide, t.data);
    if o.Ok? {
      if t.tag == PUSH || t.tag == POP {
        StackStep(lim, s, t);
        hide Step;
        StackTold(s, o.s, ts, t);
      } else {
        hide Step;
        forall a ensures TopSays(s, o.s, t, a) {
          TopStep(lim, s, t, a);
        }
        TopTold(s, o.s, ts, t);
      }
    }
  }

  predicate IsCollection(t: Token) {
    t.tag == COLLECTION || t.tag == END_COLLECTION
  }

  lemma GlobalFrame(s: Parser, t: Token)
    requires Wf(s)
    ensures var r := SetGlobal(s, t.tag, t.data);
            r.reports == s.reports && r.found == s.found && r.paths == s.paths && r.rootUsage == s.rootUsage
  {
  }

  /** Reports, fields and collections do not change with the other items. */
  lemma OtherStep(lim: Limits, s: Parser, t: Token)
    requires Wf(s) && !IsField(t) && !IsCollection(t) && t.tag != REPORT_ID
    ensures var o := Step(lim, s, t.tag, t.wide, t.data);
            o.Ok? ==>
              o.s.reports == s.reports && o.s.found == s.found && o.s.paths == s.paths && o.s.rootUsage == s.rootUsage
  {
    GlobalFrame(s, t);
    hide AddFields, SelectReport, OpenCollection, SetGlobal;
  }

  lemma FieldAct(lim: Limits, s: Parser, t: Token)
    requires Wf(s) && IsField(t)
    ensures Act(lim, s, t.tag, t.wide, t.data) == Ok(AddFields(s, KindOf(t.tag), t.data, Top(s).count)) && IsMain(t.tag)
  {
    hide AddFields, SelectReport, OpenCollection, SetGlobal, AddUsage, CloseCollection, PushState, PopState, Wf, KindOf, Top;
  }

  lemma FieldStep(lim: Limits, s: Parser, t: Token)
    requires Wf(s) && IsField(t)
    ensures Step(lim, s, t.tag, t.wide, t.data) == Ok(EndOfMain(AddFields(s, KindOf(t.tag), t.data, Top(s).count)))
  {
    FieldAct(lim, s, t);
    hide AddFields, Act, Wf, EndOfMain, IsMain, KindOf, Top, IsField;
  }

  lemma CollectionStep(lim: Limits, s: Parser, t: Token)
    requires Wf(s) && IsCollection(t)
    ensures var o := Step(lim, s, t.tag, t.wide, t.data);
            && (o.Err? <==> t.tag == END_COLLECTION && s.paths == [])
            && (o.Err? ==> o.error == UnexpectedEndCollection && o.total == s.found.total)
            && (o.Ok? ==> o.s.reports == s.reports && o.s.found == s.found)
            && (o.Ok? && t.tag == COLLECTION ==>
                  o.s.paths == OpenCollection(s, t.data).paths && o.s.rootUsage == OpenCollection(s, t.data).rootUsage)
            && (o.Ok? && t.tag == END_COLLECTION ==> o.s.paths == s.paths[..|s.paths| - 1] && o.s.rootUsage == s.rootUsage)
  {
    hide AddFields, SelectReport, SetGlobal, AddUsage;
  }

  lemma ReportIdStep(lim: Limits, s: Parser, t: Token)
    requires Wf(s) && t.tag == REPORT_ID
    ensures Step(lim, s, t.tag, t.wide, t.data) == Ok(SelectReport(s, t.data % W8))
    ensures SelectReport(s, t.data % W8).paths == s.paths && SelectReport(s, t.data % W8).rootUsage == s.rootUsage
  {
    hide AddFields, OpenCollection, SetGlobal, AddUsage, EndOfMain, FindReport;
  }

  // Local items

  lemma LocalsStep(lim: Limits, s: Parser, ts: seq<Token>, t: Token)
    requires Wf(s) && LocalsTold(s, ts) && t.data < W32
    ensures var o := Step(lim, s, t.tag, t.wide, t.data); o.Ok? ==> LocalsTold(o.s, ts + [t])
  {
    hide AddFields, FindReport, OpenCollection;
    Front(ts, t);
    if IsField(t) || t.tag == COLLECTION || t.tag == END_COLLECTION {
      assert IsMain(t.tag);
    }
  }

  // Collections

  /** The first usage taken behind given usages. */
  lemma FirstUsage(s: Parser, otherwise: nat)
    requires s.usageMin < W32 && s.usageMax < W32
    ensures var said := UsageOf(s.usages, s.usageMin, s.usageMax, 0);
            NextUsage(s, otherwise).1 == if said.Some? then said.value else otherwise
  {
  }

  lemma OpenTold(s: Parser, ts: seq<Token>, t: Token)
    requires Wf(s) && StatesTold(s, ts) && LocalsTold(s, ts) && PathsTold(s, ts) && t.tag == COLLECTION
    ensures PathsTold(OpenCollection(s, t.data), ts + [t])
  {
    Front(ts, t);
    FirstUsage(s, if s.paths == [] then s.rootUsage else 0);
    assert FromTop(s, 0) == Top(s) && AttrOf(FromTop(s, 0), Page) == InForce(ts, Page, 0);
    hide NextUsage, UsageOf, InForce, Listed, Local, StatesTold;
  }

  lemma OtherTold(s: Parser, s': Parser, ts: seq<Token>, t: Token)
    requires PathsTold(s, ts) && t.tag != COLLECTION && (t.tag == END_COLLECTION ==> s.paths != [])
    requires s'.paths == (if t.tag == END_COLLECTION then s.paths[..|s.paths| - 1] else s.paths) && s'.rootUsage == s.rootUsage
    ensures PathsTold(s', ts + [t])
  {
    Front(ts, t);
    hide FirstSaid;
  }

  lemma PathsStep(lim: Limits, s: Parser, ts: seq<Token>, t: Token)
    requires Wf(s) && StatesTold(s, ts) && LocalsTold(s, ts) && PathsTold(s, ts)
    ensures var o := Step(lim, s, t.tag, t.wide, t.data); o.Ok? ==> PathsTold(o.s, ts + [t])
  {
    hide PathsTold, StatesTold, LocalsTold, Step, AddFields, SelectReport, OpenCollection;
    var o := Step(lim, s, t.tag, t.wide, t.data);
    if o.Ok? {
      if t.tag == COLLECTION {
        CollectionStep(lim, s, t);
        OpenTold(s, ts, t);
        PathsOnly(OpenCollection(s, t.data), o.s, ts + [t]);
      } else {
        if t.tag == END_COLLECTION {
          CollectionStep(lim, s, t);
        } else if IsField(t) {
          FieldStep(lim, s, t);
          AddFieldsFrame(s, KindOf(t.tag), t.data, Top(s).count);
        } else if t.tag == REPORT_ID {
          ReportIdStep(lim, s, t);
        } else {
          OtherStep(lim, s, t);
        }
        OtherTold(s, o.s, ts, t);
      }
    }
  }

  lemma PathsOnly(s: Parser, s': Parser, ts: seq<Token>)
    requires PathsTold(s, ts) && s'.paths == s.paths && s'.rootUsage == s.rootUsage
    ensures PathsTold(s', ts)
  {
  }

  // Reports

  lemma IdsNext(ts: seq<Token>, t: Token)
    ensures IdsOf(ts + [t]) == IdsOf(ts) + if t.tag == REPORT_ID then {t.data % 0x100} else {}
  {
    var all := ts + [t];
    forall i | 0 <= i < |ts| && ts[i].tag == REPORT_ID
      ensures ts[i].data % 0x100 in IdsOf(all)
    {
      assert all[i] == ts[i];
    }
    assert all[|ts|] == t;
  }

  lemma SameIds(a: seq<Report>, b: seq<Report>)
    requires |a| == |b| && forall i :: 0 <= i < |a| ==> a[i].id == b[i].id
    ensures IdsIn(a) == IdsIn(b)
  {
    assert forall i :: 0 <= i < |a| ==> a[i].id in IdsIn(b) && b[i].id in IdsIn(a);
  }

  lemma IdsAppend(a: seq<Report>, r: Report)
    ensures IdsIn(a + [r]) == IdsIn(a) + {r.id}
  {
    var b := a + [r];
    assert forall i :: 0 <= i < |a| ==> b[i].id == a[i].id;
    assert b[|a|].id == r.id;
  }

  lemma SelectIds(s: Parser, id: nat)
    requires Wf(s) && (!s.found.usingIds ==> |s.reports| == 1)
    ensures var r := SelectReport(s, id);
            && IdsIn(r.reports) == (if s.found.usingIds then IdsIn(s.reports) else {}) + {id}
            && r.found.usingIds
            && |s.reports| <= |r.reports| <= |s.reports| + 1
            && r.found.deviceReports
               == if |r.reports| == |s.reports| then s.found.deviceReports else (s.found.deviceReports + 1) % W8
  {
    var r, k := SelectReport(s, id), FindReport(s.reports, id);
    if !s.found.usingIds {
      assert r.reports == [] + [s.reports[0].(id := id)];
      IdsAppend([], s.reports[0].(id := id));
    } else if k < |s.reports| {
      SameIds(s.reports, r.reports);
      assert s.reports[k].id in IdsIn(s.reports);
    } else {
      assert r.reports == s.reports + [NEW_REPORT.(id := id)];
      IdsAppend(s.reports, NEW_REPORT.(id := id));
    }
  }

  lemma SelectTold(s: Parser, ts: seq<Token>, t: Token)
    requires Wf(s) && ReportsTold(s, ts) && t.tag == REPORT_ID
    ensures ReportsTold(SelectReport(s, t.data % W8), ts + [t])
  {
    hide IdsOf, IdsIn, SelectReport, Wf;
    IdsNext(ts, t);
    assert Wf(s);
    SelectIds(s, t.data % W8);
  }

  lemma SameTold(s: Parser, s': Parser, ts: seq<Token>, t: Token)
    requires ReportsTold(s, ts) && t.tag != REPORT_ID
    requires |s'.reports| == |s.reports| && forall i :: 0 <= i < |s.reports| ==> s'.reports[i].id == s.reports[i].id
    requires s'.found.usingIds == s.found.usingIds && s'.found.deviceReports == s.found.deviceReports
    ensures ReportsTold(s', ts + [t])
  {
    IdsNext(ts, t);
    SameIds(s.reports, s'.reports);
    hide IdsOf, IdsIn;
  }

  lemma ReportsStep(lim: Limits, s: Parser, ts: seq<Token>, t: Token)
    requires Wf(s) && ReportsTold(s, ts)
    ensures var o := Step(lim, s, t.tag, t.wide, t.data); o.Ok? ==> ReportsTold(o.s, ts + [t])
  {
    var o := Step(lim, s, t.tag, t.wide, t.data);
    hide ReportsTold, Step, AddFields, SelectReport;
    if t.tag == REPORT_ID {
      ReportIdStep(lim, s, t);
      SelectTold(s, ts, t);
    } else if o.Ok? {
      if IsField(t) {
        FieldStep(lim, s, t);
        AddFieldsFrame(s, KindOf(t.tag), t.data, Top(s).count);
      } else if IsCollection(t) {
        CollectionStep(lim, s, t);
      } else {
        OtherStep(lim, s, t);
      }
      SameTold(s, o.s, ts, t);
    }
  }

  // Fields

  /** Where the range stands after `j` usages are taken from it. */
  function Advanced(lo: nat, hi: nat, j: nat): nat {
    if lo > hi then lo else if hi == W32 - 1 then (lo + j) % W32 else Min(lo + j, hi + 1)
  }

  /** The usages left behind `n` fields. */
  ghost predicate UsagesLeft(s: Parser, s': Parser, n: nat) {
    && s'.usages == s.usages[Min(n, |s.usages|)..] && s'.usageMax == s.usageMax
    && s'.usageMin == if n <= |s.usages| then s.usageMin else Advanced(s.usageMin, s.usageMax, n - |s.usages|)
  }

  lemma UsageTaken(s: Parser, s': Parser, n: nat)
    requires s.usageMin < W32 && s.usageMax < W32 && UsagesLeft(s, s', n)
    ensures var (r, usage) := NextUsage(s', 0);
            var said := UsageOf(s.usages, s.usageMin, s.usageMax, n);
            UsagesLeft(s, r, n + 1) && usage == if said.Some? then said.value else 0
  {
    if n < |s.usages| {
      hide Advanced;
      assert s.usages[n..][1..] == s.usages[n + 1..];
    } else {
      var j := n - |s.usages|;
      assert s.usages[Min(n, |s.usages|)..] == [] && s.usages[Min(n + 1, |s.usages|)..] == [];
      AdvancedNext(s.usageMin, s.usageMax, j);
      hide Advanced;
    }
  }

  /** The field width and the low half of a counter that wraps at 2^32. */
  lemma Wraps(x: nat)
    ensures x % W32 % W16 == x % W16 && (x % W32 + 1) % W32 == (x + 1) % W32
  {
    var q, r := x / W32, x % W32;
    ModUnique(x, W16, W16 * q + r / W16, r % W16);
    if r + 1 < W32 {
      ModUnique(x + 1, W32, q, r + 1);
    } else {
      ModUnique(x + 1, W32, q + 1, 0);
    }
  }

  lemma AdvancedNext(lo: nat, hi: nat, j: nat)
    requires lo < W32 && hi < W32
    ensures Advanced(lo, hi, 0) == lo
    ensures var at := Advanced(lo, hi, j);
            if lo <= hi && (lo + j <= hi || hi == W32 - 1) then
              at <= hi && at % W16 == (lo + j) % W16 && Advanced(lo, hi, j + 1) == (at + 1) % W32
            else hi < at && Advanced(lo, hi, j + 1) == at
  {
    if lo <= hi {
      ModUnique(lo, W32, 0, lo);
      if hi == W32 - 1 {
        Wraps(lo + j);
      } else if lo + j <= hi {
        ModUnique(lo + j + 1, W32, 0, lo + j + 1);
      }
    }
  }

  lemma WantedIs(item: Item)
    ensures Keeps(item) <==> IsWanted(SaidOf(item))
  {
  }

  /** The item of the next field. */
  function ItemOf(s: Parser, kind: nat, data: nat): Item
    requires Wf(s) && kind < 3
  {
    var g := Top(s);
    Item(s.reports[s.cur].bits[kind], kind, data % W16, g.id, g.attrs.(usage := NextUsage(s, g.attrs.usage).1))
  }

  /** What a field adds. */
  lemma FieldAdds(s: Parser, kind: nat, data: nat)
    requires Wf(s) && kind < 3
    ensures var f, f', item := s.found, AddField(s, kind, data).found, ItemOf(s, kind, data);
            var said := SaidOf(item);
            && |f'.fields| == |f.fields| + 1 && f'.fields[..|f.fields|] == f.fields
            && (var last := f'.fields[|f.fields|];
                last.kind == said.kind && last.id == said.id && last.size == said.attrs.bitSize && last.stored == IsWanted(said))
            && f'.items == (if IsWanted(said) then f.items + [item] else f.items)
            && f'.total == (if IsWanted(said) then (f.total + 1) % W8 else f.total)
            && var sony := said.kind == FEATURE_TYPE && said.attrs.page == 0xFF00;
               && f'.ps3 == (f.ps3 || (sony && said.attrs.usage == 0x2621))
               && f'.ps4 == (f.ps4 || (sony && said.attrs.usage == 0x2721))
               && f'.ps5 == (f.ps5 || (sony && said.attrs.usage == 0x2821))
  {
    WantedIs(ItemOf(s, kind, data));
    hide NextUsage, Keeps, IsWanted, AddBits;
  }

  lemma SaidMore(items: seq<Item>, item: Item)
    ensures SaidItems(items + [item]) == SaidItems(items) + [SaidOf(item)]
  {
  }

  lemma WantedMore(fs: seq<Said>, f: Said)
    ensures Wanted(fs + [f]) == Wanted(fs) + if IsWanted(f) then [f] else []
  {
    assert (fs + [f])[..|fs|] == fs;
  }

  lemma FeatureMore(fs: seq<Said>, f: Said, usage: nat)
    ensures FeatureSaid(fs + [f], usage)
       <==> (FeatureSaid(fs, usage) || (f.kind == FEATURE_TYPE && f.attrs.page == 0xFF00 && f.attrs.usage == usage))
  {
    var all := fs + [f];
    assert all[|fs|] == f;
    assert forall i :: 0 <= i < |fs| ==> all[i] == fs[i];
  }

  lemma LaidMore(fields: seq<Field>, after: seq<Field>, fs: seq<Said>, f: Said)
    requires LaidTold(fields, fs) && |after| == |fields| + 1 && after[..|fields|] == fields
    requires var last := after[|fields|];
             last.kind == f.kind && last.id == f.id && last.size == f.attrs.bitSize && last.stored == IsWanted(f)
    ensures LaidTold(after, fs + [f])
  {
    hide IsWanted;
    assert forall i :: 0 <= i < |fs| ==> after[i] == after[..|fields|][i];
  }

  lemma StoredMore(f: Found, f': Found, fs: seq<Said>, item: Item)
    requires StoredTold(f, fs)
    requires f'.items == if IsWanted(SaidOf(item)) then f.items + [item] else f.items
    requires f'.total == if IsWanted(SaidOf(item)) then (f.total + 1) % W8 else f.total
    ensures StoredTold(f', fs + [SaidOf(item)])
  {
    hide IsWanted, Wanted, SaidItems;
    WantedMore(fs, SaidOf(item));
    SaidMore(f.items, item);
  }

  lemma SonyMore(f: Found, f': Found, fs: seq<Said>, said: Said)
    requires SonyTold(f, fs)
    requires var sony := said.kind == FEATURE_TYPE && said.attrs.page == 0xFF00;
             && f'.ps3 == (f.ps3 || (sony && said.attrs.usage == 0x2621))
             && f'.ps4 == (f.ps4 || (sony && said.attrs.usage == 0x2721))
             && f'.ps5 == (f.ps5 || (sony && said.attrs.usage == 0x2821))
    ensures SonyTold(f', fs + [said])
  {
    hide FeatureSaid;
    FeatureMore(fs, said, 0x2621);
    FeatureMore(fs, said, 0x2721);
    FeatureMore(fs, said, 0x2821);
  }

  lemma FieldTold(s: Parser, kind: nat, data: nat, fs: seq<Said>)
    requires Wf(s) && kind < 3 && FieldsTold(s.found, fs)
    ensures FieldsTold(AddField(s, kind, data).found, fs + [SaidOf(ItemOf(s, kind, data))])
  {
    var item := ItemOf(s, kind, data);
    FieldAdds(s, kind, data);
    hide AddField, ItemOf, SaidOf, IsWanted, LaidTold, StoredTold, SonyTold;
    var f, f' := s.found, AddField(s, kind, data).found;
    LaidMore(f.fields, f'.fields, fs, SaidOf(item));
    StoredMore(f, f', fs, item);
    SonyMore(f, f', fs, SaidOf(item));
  }

  /** Field number `n` of a main item is as the items before say. */
  lemma ItemSaid(s: Parser, s': Parser, ts: seq<Token>, t: Token, n: nat)
    requires Wf(s) && Wf(s') && StatesTold(s, ts) && LocalsTold(s, ts) && IsField(t)
    requires Top(s') == Top(s) && UsagesLeft(s, s', n)
    ensures SaidOf(ItemOf(s', KindOf(t.tag), t.data)) == FieldSaid(ts, t, n)
    ensures UsagesLeft(s, AddField(s', KindOf(t.tag), t.data), n + 1)
  {
    UsageTaken(s, s', n);
    TopIs(s, ts);
    hide NextUsage, UsageOf, StatesTold, Advanced, Keeps, NoteVendor, AddBits, InForce;
  }

  lemma TopIs(s: Parser, ts: seq<Token>)
    requires Wf(s) && StatesTold(s, ts)
    ensures forall a :: AttrOf(Top(s), a) == InForce(ts, a, 0)
    ensures Top(s).attrs == AttributesOf(ts, 0) && Top(s).id == InForce(ts, Id, 0) && Top(s).count == InForce(ts, Count, 0)
  {
    assert FromTop(s, 0) == Top(s);
    forall a ensures AttrOf(Top(s), a) == InForce(ts, a, 0) {
      assert AttrOf(FromTop(s, 0), a) == InForce(ts, a, 0);
    }
    hide InForce;
    assert AttrOf(Top(s), Page) == InForce(ts, Page, 0) && AttrOf(Top(s), BitSize) == InForce(ts, BitSize, 0);
    assert AttrOf(Top(s), UnitType) == InForce(ts, UnitType, 0) && AttrOf(Top(s), UnitExponent) == InForce(ts, UnitExponent, 0);
    assert AttrOf(Top(s), LogicalMin) == InForce(ts, LogicalMin, 0) && AttrOf(Top(s), LogicalMax) == InForce(ts, LogicalMax, 0);
    assert AttrOf(Top(s), PhysicalMin) == InForce(ts, PhysicalMin, 0) && AttrOf(Top(s), PhysicalMax) == InForce(ts, PhysicalMax, 0);
    assert AttrOf(Top(s), Id) == InForce(ts, Id, 0) && AttrOf(Top(s), Count) == InForce(ts, Count, 0);
  }

  /** The first `n` fields of a main item: each has the usage of its place in the list, then that of its place
      in the range, and the attributes in force. */
  lemma {:induction false} FieldsAdded(s: Parser, ts: seq<Token>, t: Token, n: nat)
    requires Told(s, ts) && IsField(t)
    ensures var s' := AddFields(s, KindOf(t.tag), t.data, n);
            FieldsTold(s'.found, AllSaid(ts) + FieldsSaid(ts, t, n)) && UsagesLeft(s, s', n)
  {
    hide AddField, FieldsTold, StatesTold, LocalsTold, PathsTold, ReportsTold, FieldSaid;
    if n == 0 {
      assert AllSaid(ts) + FieldsSaid(ts, t, 0) == AllSaid(ts);
    } else {
      FieldsAdded(s, ts, t, n - 1);
      var before := AddFields(s, KindOf(t.tag), t.data, n - 1);
      FieldTold(before, KindOf(t.tag), t.data, AllSaid(ts) + FieldsSaid(ts, t, n - 1));
      ItemSaid(s, before, ts, t, n - 1);
      assert AllSaid(ts) + FieldsSaid(ts, t, n) == AllSaid(ts) + FieldsSaid(ts, t, n - 1) + [FieldSaid(ts, t, n - 1)];
    }
  }

  lemma FieldsStep(lim: Limits, s: Parser, ts: seq<Token>, t: Token)
    requires Told(s, ts)
    ensures var o := Step(lim, s, t.tag, t.wide, t.data); o.Ok? ==> FieldsTold(o.s.found, AllSaid(ts + [t]))
  {
    Front(ts, t);
    hide FieldsTold, StatesTold, LocalsTold, PathsTold, ReportsTold;
    if IsField(t) {
      FieldStep(lim, s, t);
      TopIs(s, ts);
      FieldsAdded(s, ts, t, InForce(ts, Count, 0));
      hide AddFields;
    } else if IsCollection(t) {
      CollectionStep(lim, s, t);
    } else if t.tag == REPORT_ID {
      ReportIdStep(lim, s, t);
      SelectFound(s, t.data % W8);
    } else {
      OtherStep(lim, s, t);
    }
    hide Step;
    assert !IsField(t) ==> AllSaid(ts + [t]) == AllSaid(ts) + [] == AllSaid(ts);
  }

  lemma SelectFound(s: Parser, id: nat)
    requires Wf(s)
    ensures var f := SelectReport(s, id).found;
            f == s.found.(usingIds := f.usingIds, deviceReports := f.deviceReports)
    ensures forall fs :: FieldsTold(s.found, fs) ==> FieldsTold(SelectReport(s, id).found, fs)
  {
    hide FindReport;
  }

  // Whole descriptors

  /** One more item: the state stays as told, or the item meets the error it should. */
  lemma TokenTold(lim: Limits, s: Parser, ts: seq<Token>, t: Token)
    requires Told(s, ts) && t.data < W32
    ensures var o := Step(lim, s, t.tag, t.wide, t.data);
            && (o.Ok? ==> Told(o.s, ts + [t]) && Fault(lim, ts, t).None?)
            && (o.Err? ==> Fault(lim, ts, t) == Some(o.error) && o.total == |Wanted(AllSaid(ts))| % 0x100)
  {
    StatesStep(lim, s, ts, t);
    LocalsStep(lim, s, ts, t);
    PathsStep(lim, s, ts, t);
    FieldsStep(lim, s, ts, t);
    ReportsStep(lim, s, ts, t);
    FaultTold(lim, s, ts, t);
    hide Step, StatesTold, LocalsTold, PathsTold, FieldsTold, ReportsTold;
  }

  lemma UsageStep(lim: Limits, s: Parser, t: Token)
    requires Wf(s) && t.tag == USAGE
    ensures var o := Step(lim, s, t.tag, t.wide, t.data);
            && (o.Err? <==> |s.usages| >= lim.usages)
            && (o.Err? ==> o.error == UsageListOverflow && o.total == s.found.total)
  {
    hide AddFields, SelectReport, SetGlobal, OpenCollection;
  }

  lemma NoErrorStep(lim: Limits, s: Parser, t: Token)
    requires Wf(s) && t.tag != PUSH && t.tag != POP && t.tag != USAGE && t.tag != END_COLLECTION
    ensures Step(lim, s, t.tag, t.wide, t.data).Ok?
  {
    hide AddFields, SelectReport, SetGlobal, OpenCollection;
  }

  lemma FaultTold(lim: Limits, s: Parser, ts: seq<Token>, t: Token)
    requires Told(s, ts)
    ensures var o := Step(lim, s, t.tag, t.wide, t.data);
            && (o.Ok? ==> Fault(lim, ts, t).None?)
            && (o.Err? ==> Fault(lim, ts, t) == Some(o.error) && o.total == |Wanted(AllSaid(ts))| % 0x100)
  {
    StoredOf(s, ts);
    hide Step, LaidTold, StoredTold, SonyTold, ReportsTold, InForce, Wanted, AllSaid, Local;
    if t.tag == PUSH || t.tag == POP {
      StackStep(lim, s, t);
    } else if t.tag == USAGE {
      UsageStep(lim, s, t);
    } else if t.tag == END_COLLECTION {
      CollectionStep(lim, s, t);
    } else {
      NoErrorStep(lim, s, t);
    }
  }

  function Power(n: nat): nat {
    if n == 0 then 1 else 256 * Power(n - 1)
  }

  lemma {:induction false} NumberBelow(s: seq<byte>, n: nat)
    requires |s| <= n
    ensures Number(s) < Power(n)
    decreases n
  {
    if s != [] {
      NumberBelow(s[1..], n - 1);
    } else if n > 0 {
      NumberBelow(s, n - 1);
    }
  }

  lemma TokenBelow(d: seq<byte>)
    requires d != [] && 1 + DataLen(d[0]) <= |d|
    ensures TokenAt(d).data < W32
  {
    hide Number;
    NumberBelow(d[1..1 + DataLen(d[0])], 4);
    assert Power(2) == 0x1_0000 && Power(4) == 0x1_0000 * Power(2);
  }

  /** The first item that meets an error is number `n`; it is none if `n` is the number of items. */
  ghost predicate FirstFault(lim: Limits, ts: seq<Token>, n: nat) {
    && n <= |ts|
    && (forall m :: 0 <= m < n ==> Fault(lim, ts[..m], ts[m]).None?)
    && (n < |ts| ==> Fault(lim, ts[..n], ts[n]).Some?)
  }

  ghost predicate NoFault(lim: Limits, ts: seq<Token>, n: nat)
    requires n <= |ts|
  {
    forall m :: 0 <= m < n ==> Fault(lim, ts[..m], ts[m]).None?
  }

  lemma NoFaultNext(lim: Limits, ts: seq<Token>, t: Token)
    requires NoFault(lim, ts, |ts|) && Fault(lim, ts, t).None?
    ensures NoFault(lim, ts + [t], |ts| + 1)
  {
    hide Fault;
    var all := ts + [t];
    forall m | 0 <= m < |all| ensures Fault(lim, all[..m], all[m]).None? {
      assert all[..m] == if m < |ts| then ts[..m] else ts;
    }
  }

  lemma FaultHere(lim: Limits, ts: seq<Token>, rest: seq<Token>)
    requires NoFault(lim, ts, |ts|) && rest != [] && Fault(lim, ts, rest[0]).Some?
    ensures FirstFault(lim, ts + rest, |ts|) && (ts + rest)[..|ts|] == ts
  {
    hide Fault;
    var all := ts + rest;
    assert all[..|ts|] == ts;
    forall m | 0 <= m < |ts| ensures Fault(lim, all[..m], all[m]).None? {
      assert all[..m] == ts[..m];
    }
  }

  /** The outcome of some items, up to the first error. */
  ghost predicate Ends(lim: Limits, ts: seq<Token>, o: Outcome, n: nat) {
    && FirstFault(lim, ts, n) && (o.Ok? <==> n == |ts|)
    && (o.Ok? ==> Told(o.s, ts))
    && (o.Err? ==> Fault(lim, ts[..n], ts[n]) == Some(o.error) && o.total == |Wanted(AllSaid(ts[..n]))| % 0x100)
  }

  lemma EndsWell(lim: Limits, s: Parser, ts: seq<Token>)
    requires NoFault(lim, ts, |ts|) && Told(s, ts)
    ensures Ends(lim, ts, Ok(s), |ts|)
  {
    hide Told, Fault;
  }

  lemma EndsHere(lim: Limits, s: Parser, ts: seq<Token>, rest: seq<Token>)
    requires NoFault(lim, ts, |ts|) && Told(s, ts) && rest != [] && rest[0].data < W32
    requires Step(lim, s, rest[0].tag, rest[0].wide, rest[0].data).Err?
    ensures Ends(lim, ts + rest, Step(lim, s, rest[0].tag, rest[0].wide, rest[0].data), |ts|)
  {
    TokenTold(lim, s, ts, rest[0]);
    FaultHere(lim, ts, rest);
    hide Told, Fault, Step, FirstFault;
    assert (ts + rest)[|ts|] == rest[0];
  }

  lemma FirstToken(lim: Limits, s: Parser, d: seq<byte>)
    requires Wf(s) && WellFormed(d) && d != []
    ensures 1 + DataLen(d[0]) <= |d| && WellFormed(d[1 + DataLen(d[0])..])
    ensures var t, rest := TokenAt(d), d[1 + DataLen(d[0])..];
            var o := Step(lim, s, t.tag, t.wide, t.data);
            && t.data < W32 && Tokens(d) == [t] + Tokens(rest)
            && Interpret(lim, s, d) == if o.Ok? then Interpret(lim, o.s, rest) else o
  {
    hide Step;
    assert WellFormed(d);
    TokenBelow(d);
  }

  lemma NoToken(lim: Limits, s: Parser, ts: seq<Token>)
    requires Wf(s)
    ensures WellFormed([]) && ts + Tokens([]) == ts && Interpret(lim, s, []) == Ok(s)
  {
  }

  lemma Regrouped(ts: seq<Token>, t: Token, rest: seq<Token>)
    ensures ts + ([t] + rest) == ts + [t] + rest
  {
  }

  /** The items of a descriptor, behind others: the state is as all of them say. */
  lemma {:induction false} InterpretTold(lim: Limits, s: Parser, d: seq<byte>, ts: seq<Token>) returns (n: nat)
    requires WellFormed(d) && Told(s, ts) && NoFault(lim, ts, |ts|)
    ensures Ends(lim, ts + Tokens(d), Interpret(lim, s, d), n)
    decreases |d|
  {
    assert Wf(s);
    hide *;
    if d == [] {
      n := |ts|;
      NoToken(lim, s, ts);
      EndsWell(lim, s, ts);
    } else {
      FirstToken(lim, s, d);
      var t, rest := TokenAt(d), d[1 + DataLen(d[0])..];
      var o := Step(lim, s, t.tag, t.wide, t.data);
      if o.Ok? {
        TokenTold(lim, s, ts, t);
        NoFaultNext(lim, ts, t);
        n := InterpretTold(lim, o.s, rest, ts + [t]);
        Regrouped(ts, t, Tokens(rest));
      } else {
        n := |ts|;
        EndsHere(lim, s, ts, Tokens(d));
      }
    }
  }

  /** A parse of any descriptor, told from its items alone: the items stored are the wanted ones of the fields
      that the descriptor says, up to the first error; that nothing was stored, or 256 items, is reported even
      after another error. */
  lemma ParseTold(lim: Limits, d: seq<byte>) returns (n: nat)
    requires WellFormed(d)
    ensures var o, ts := Parse(lim, d), Tokens(d);
            && FirstFault(lim, ts, n)
            && var stored := Wanted(AllSaid(ts[..n]));
               if |stored| % 0x100 == 0 then o == Err(NoUnfilteredReportItems, 0)
               else if n < |ts| then o == Err(Fault(lim, ts[..n], ts[n]).value, |stored| % 0x100)
               else o.Ok? && Told(o.s, ts) && SaidItems(o.s.found.items) == stored
  {
    StartTold();
    assert NoFault(lim, [], 0) && Wf(START);
    hide Told, Fault, NoFault, Interpret, Tokens, AllSaid, Wanted, Wf, SaidItems, FirstFault;
    n := InterpretTold(lim, START, d, []);
    var ts := Tokens(d);
    assert [] + ts == ts;
    var o := Interpret(lim, START, d);
    assert n <= |ts| by { FaultInside(lim, ts, n); }
    if o.Ok? {
      assert ts[..n] == ts;
      StoredOf(o.s, ts);
    }
  }

  lemma FaultInside(lim: Limits, ts: seq<Token>, n: nat)
    requires FirstFault(lim, ts, n)
    ensures n <= |ts|
  {
  }

  lemma StoredOf(s: Parser, ts: seq<Token>)
    requires Told(s, ts)
    ensures SaidItems(s.found.items) == Wanted(AllSaid(ts)) && s.found.total == |Wanted(AllSaid(ts))| % 0x100
  {
    hide StatesTold, LocalsTold, PathsTold, ReportsTold, SonyTold, LaidTold;
  }

  /** A parse of these items fails with an error. */
  ghost predicate FailsWith(lim: Limits, ts: seq<Token>, error: Error) {
    exists n :: FirstFault(lim, ts, n) && error == ErrorAt(lim, ts, n) != Successful
  }

  ghost function ErrorAt(lim: Limits, ts: seq<Token>, n: nat): Error
    requires FirstFault(lim, ts, n)
  {
    if |Wanted(AllSaid(ts[..n]))| % 0x100 == 0 then NoUnfilteredReportItems
    else if n < |ts| then Fault(lim, ts[..n], ts[n]).value
    else Successful
  }

  /** A parse succeeds with the wanted fields as its items, or fails as its items say. */
  lemma ParseSays(lim: Limits, d: seq<byte>)
    requires WellFormed(d)
    ensures var o, ts := Parse(lim, d), Tokens(d);
            if o.Ok? then FirstFault(lim, ts, |ts|) && SaidItems(o.s.found.items) == Wanted(AllSaid(ts))
            else FailsWith(lim, ts, o.error)
  {
    var n := ParseTold(lim, d);
    hide Parse, Fault, Told;
    var ts := Tokens(d);
    assert ts[..|ts|] == ts;
    if Parse(lim, d).Err? {
      FaultIsError(lim, ts[..n], if n < |ts| then ts[n] else Token(0, false, 0));
      assert ErrorAt(lim, ts, n) == Parse(lim, d).error;
    }
  }

  lemma FaultIsError(lim: Limits, ts: seq<Token>, t: Token)
    ensures Fault(lim, ts, t) != Some(Successful)
  {
  }
}
