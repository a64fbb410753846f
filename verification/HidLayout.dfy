/** How the parsed fields lie in their reports. */
module HidLayout {
  import opened Bytes
  import opened HidSpec

  /** Bits that the fields of one kind have taken in one report. */
  function Taken(fields: seq<Field>, slot: nat, kind: nat): nat {
    if fields == [] then 0
    else
      var f := fields[|fields| - 1];
      Taken(fields[..|fields| - 1], slot, kind) + (if f.slot == slot && f.kind == kind then f.size else 0)
  }

  lemma TakenAppend(fields: seq<Field>, f: Field, slot: nat, kind: nat)
    ensures Taken(fields + [f], slot, kind) ==
            Taken(fields, slot, kind) + (if f.slot == slot && f.kind == kind then f.size else 0)
  {
    assert (fields + [f])[..|fields|] == fields;
  }

  lemma {:induction false} TakenMonotone(fields: seq<Field>, n: nat, slot: nat, kind: nat)
    requires n <= |fields|
    ensures Taken(fields[..n], slot, kind) <= Taken(fields, slot, kind)
    decreases |fields| - n
  {
    if n < |fields| {
      assert fields[..n + 1] == fields[..n] + [fields[n]];
      TakenAppend(fields[..n], fields[n], slot, kind);
      TakenMonotone(fields, n + 1, slot, kind);
    } else {
      assert fields[..n] == fields;
    }
  }

  /** Every field starts where the earlier fields of its kind and report end. */
  ghost predicate Packed(fields: seq<Field>) {
    forall i :: 0 <= i < |fields| ==>
      fields[i].offset == Taken(fields[..i], fields[i].slot, fields[i].kind) % W16
  }

  predicate InReports(reports: seq<Report>, fields: seq<Field>) {
    forall i :: 0 <= i < |fields| ==> fields[i].slot < |reports| && fields[i].kind < 3
  }

  /** Size of a report in bits, for one kind of item. */
  function BitsOf(reports: seq<Report>, slot: nat, kind: nat): nat {
    if slot < |reports| && kind < |reports[slot].bits| then reports[slot].bits[kind] else 0
  }

  /** The size kept for a report is what its fields have taken. */
  ghost predicate Measured(reports: seq<Report>, fields: seq<Field>) {
    forall slot, kind :: 0 <= slot < |reports| && 0 <= kind < 3 ==>
      BitsOf(reports, slot, kind) == Taken(fields, slot, kind) % W16
  }

  predicate UniqueIds(reports: seq<Report>) {
    forall i, j :: 0 <= i < j < |reports| ==> reports[i].id != reports[j].id
  }

  /** What holds after every item of any descriptor. */
  ghost predicate LaidOut(s: Parser) {
    && Wf(s)
    && InReports(s.reports, s.found.fields)
    && Packed(s.found.fields) && Measured(s.reports, s.found.fields)
    && UniqueIds(s.reports)
    && (!s.found.usingIds ==> |s.reports| == 1)
  }

  lemma LaidOutWf(s: Parser)
    requires LaidOut(s)
    ensures Wf(s)
  {
  }

  lemma StartLaidOut()
    ensures LaidOut(START)
  {
  }

  lemma PackedAppend(fields: seq<Field>, f: Field)
    requires Packed(fields) && f.offset == Taken(fields, f.slot, f.kind) % W16
    ensures Packed(fields + [f])
  {
    hide Taken;
    var fs := fields + [f];
    forall i | 0 <= i < |fs|
      ensures fs[i].offset == Taken(fs[..i], fs[i].slot, fs[i].kind) % W16
    {
      if i < |fields| {
        assert fs[..i] == fields[..i];
      } else {
        assert fs[..i] == fields;
      }
    }
  }

  lemma MeasuredAppend(reports: seq<Report>, fields: seq<Field>, f: Field)
    requires Measured(reports, fields) && f.slot < |reports| && f.kind < 3
    requires forall i :: 0 <= i < |reports| ==> WfReport(reports[i])
    ensures Measured(reports[f.slot := AddBits(reports[f.slot], f.kind, f.size)], fields + [f])
  {
    hide Taken;
    var rs := reports[f.slot := AddBits(reports[f.slot], f.kind, f.size)];
    forall slot, kind | 0 <= slot < |rs| && 0 <= kind < 3
      ensures BitsOf(rs, slot, kind) == Taken(fields + [f], slot, kind) % W16
    {
      TakenAppend(fields, f, slot, kind);
      assert BitsOf(reports, slot, kind) == Taken(fields, slot, kind) % W16;
    }
  }

  lemma AddFieldLaidOut(s: Parser, kind: nat, data: nat)
    requires LaidOut(s) && kind < 3
    ensures LaidOut(AddField(s, kind, data))
  {
    hide Keeps, NextUsage, Taken, Packed, Measured, NoteVendor;
    var s' := AddField(s, kind, data);
    var f := s'.found.fields[|s.found.fields|];
    assert s'.found.fields == s.found.fields + [f];
    assert s.reports[s.cur].bits[kind] == Taken(s.found.fields, s.cur, kind) % W16 by {
      MeasuredAt(s, s.cur, kind);
    }
    PackedAppend(s.found.fields, f);
    MeasuredAppend(s.reports, s.found.fields, f);
  }

  lemma MeasuredAt(s: Parser, slot: nat, kind: nat)
    requires LaidOut(s) && slot < |s.reports| && kind < 3
    ensures BitsOf(s.reports, slot, kind) == Taken(s.found.fields, slot, kind) % W16
    ensures BitsOf(s.reports, slot, kind) == s.reports[slot].bits[kind]
  {
    hide Taken, Packed;
  }

  lemma SelectReportLaidOut(s: Parser, id: nat)
    requires LaidOut(s)
    ensures LaidOut(SelectReport(s, id))
  {
    hide Taken, Packed;
    var s' := SelectReport(s, id);
    var k := FindReport(s.reports, id);
    forall slot, kind | 0 <= slot < |s'.reports| && 0 <= kind < 3
      ensures BitsOf(s'.reports, slot, kind) == Taken(s.found.fields, slot, kind) % W16
    {
      if slot < |s.reports| {
        MeasuredAt(s, slot, kind);
      } else {
        NothingTaken(s.found.fields, slot, kind);
      }
    }
  }

  lemma {:induction false} NothingTaken(fields: seq<Field>, slot: nat, kind: nat)
    requires forall i :: 0 <= i < |fields| ==> fields[i].slot != slot
    ensures Taken(fields, slot, kind) == 0
  {
    if fields != [] {
      NothingTaken(fields[..|fields| - 1], slot, kind);
    }
  }

  // The largest report

  /** No report has reached 2^16 bits of one kind. */
  ghost predicate NoWrap(s: Parser) {
    forall slot, kind :: 0 <= slot < |s.reports| && 0 <= kind < 3 ==> Taken(s.found.fields, slot, kind) < W16
  }

  ghost predicate Attained(s: Parser) {
    s.found.largest == 0 ||
    exists slot, kind :: 0 <= slot < |s.reports| && 0 <= kind < 3 && BitsOf(s.reports, slot, kind) == s.found.largest
  }

  /** The largest size bounds every report and, unless a size wrapped around, is one of them. */
  ghost predicate LargestOk(s: Parser) {
    && (forall slot, kind :: 0 <= slot < |s.reports| && 0 <= kind < 3 ==> BitsOf(s.reports, slot, kind) <= s.found.largest)
    && (NoWrap(s) ==> Attained(s))
  }

  lemma AddFieldLargest(s: Parser, kind: nat, data: nat)
    requires LaidOut(s) && LargestOk(s) && kind < 3
    ensures LargestOk(AddField(s, kind, data))
  {
    hide Keeps, NextUsage, Taken, Packed, NoteVendor, Measured, UniqueIds, InReports;
    var s' := AddField(s, kind, data);
    var f := s'.found.fields[|s.found.fields|];
    assert s'.found.fields == s.found.fields + [f];
    forall slot, k | 0 <= slot < |s'.reports| && 0 <= k < 3
      ensures BitsOf(s'.reports, slot, k) <= s'.found.largest
    {
      assert BitsOf(s.reports, slot, k) <= s.found.largest;
    }
    if NoWrap(s') {
      AddFieldNoWrap(s, kind, data);
      if BitsOf(s'.reports, s.cur, kind) != s'.found.largest && s'.found.largest != 0 {
        var slot, k :| 0 <= slot < |s.reports| && 0 <= k < 3 && BitsOf(s.reports, slot, k) == s.found.largest;
        assert BitsOf(s'.reports, slot, k) == s'.found.largest;
      }
    }
  }

  lemma AddFieldNoWrap(s: Parser, kind: nat, data: nat)
    requires LaidOut(s) && kind < 3 && NoWrap(AddField(s, kind, data))
    ensures NoWrap(s)
    ensures BitsOf(AddField(s, kind, data).reports, s.cur, kind) >= BitsOf(s.reports, s.cur, kind)
  {
    hide Keeps, NextUsage, Taken, Packed, NoteVendor, Measured, UniqueIds, InReports;
    var s' := AddField(s, kind, data);
    var f := s'.found.fields[|s.found.fields|];
    assert s'.found.fields == s.found.fields + [f];
    forall slot, k | 0 <= slot < |s.reports| && 0 <= k < 3
      ensures Taken(s.found.fields, slot, k) < W16
    {
      TakenAppend(s.found.fields, f, slot, k);
      assert Taken(s'.found.fields, slot, k) < W16;
    }
    TakenAppend(s.found.fields, f, s.cur, kind);
    MeasuredAt(s, s.cur, kind);
    assert Taken(s'.found.fields, s.cur, kind) < W16;
  }

  lemma SelectReportLargest(s: Parser, id: nat)
    requires LaidOut(s) && LargestOk(s)
    ensures LargestOk(SelectReport(s, id))
  {
    hide Taken, Packed, Measured, UniqueIds, InReports;
    var s' := SelectReport(s, id);
    forall slot, k | 0 <= slot < |s'.reports| && 0 <= k < 3
      ensures BitsOf(s'.reports, slot, k) <= s'.found.largest
      ensures slot < |s.reports| ==> BitsOf(s'.reports, slot, k) == BitsOf(s.reports, slot, k)
    {
      if slot < |s.reports| {
        assert BitsOf(s.reports, slot, k) <= s.found.largest;
      }
    }
    if NoWrap(s') {
      assert NoWrap(s) by {
        forall slot, k | 0 <= slot < |s.reports| && 0 <= k < 3
          ensures Taken(s.found.fields, slot, k) < W16
        {
          assert Taken(s'.found.fields, slot, k) < W16;
        }
      }
      if s.found.largest != 0 {
        var slot, k :| 0 <= slot < |s.reports| && 0 <= k < 3 && BitsOf(s.reports, slot, k) == s.found.largest;
        assert BitsOf(s'.reports, slot, k) == s'.found.largest;
      }
    }
  }

  // The items kept

  function Kept(fields: seq<Field>): seq<Field> {
    if fields == [] then []
    else
      var f := fields[|fields| - 1];
      Kept(fields[..|fields| - 1]) + (if f.stored then [f] else [])
  }

  /** An item is the field it was made from. */
  predicate Matches(item: Item, f: Field) {
    && item.offset == f.offset && item.kind == f.kind && item.attrs.bitSize == f.size && item.id == f.id
    && item.kind == IN
  }

  ghost predicate ItemsOk(f: Found) {
    && |f.items| == |Kept(f.fields)|
    && f.total == |f.items| % W8
    && forall k :: 0 <= k < |f.items| ==> Matches(f.items[k], Kept(f.fields)[k])
  }

  lemma KeptAppend(fields: seq<Field>, f: Field)
    ensures Kept(fields + [f]) == Kept(fields) + (if f.stored then [f] else [])
  {
    assert (fields + [f])[..|fields|] == fields;
  }

  lemma AddFieldItems(s: Parser, kind: nat, data: nat)
    requires Wf(s) && ItemsOk(s.found) && kind < 3
    ensures ItemsOk(AddField(s, kind, data).found)
  {
    hide NextUsage, NoteVendor, Kept;
    var s' := AddField(s, kind, data);
    var f := s'.found.fields[|s.found.fields|];
    assert s'.found.fields == s.found.fields + [f];
    KeptAppend(s.found.fields, f);
  }

  /** Position of the kept field number `k`. */
  function Position(fields: seq<Field>, k: nat): (i: nat)
    requires k < |Kept(fields)|
    ensures i < |fields| && fields[i] == Kept(fields)[k] && fields[i].stored
  {
    var init := fields[..|fields| - 1];
    if k < |Kept(init)| then Position(init, k) else |fields| - 1
  }

  lemma {:induction false} PositionsIncrease(fields: seq<Field>, k: nat, l: nat)
    requires k < l < |Kept(fields)|
    ensures Position(fields, k) < Position(fields, l)
  {
    var init := fields[..|fields| - 1];
    if l < |Kept(init)| {
      PositionsIncrease(init, k, l);
    }
  }

  // Every descriptor

  ghost predicate Inv(s: Parser) {
    LaidOut(s) && LargestOk(s) && ItemsOk(s.found)
  }

  lemma InvWf(s: Parser)
    requires Inv(s)
    ensures Wf(s)
  {
  }

  lemma StartInv()
    ensures Inv(START)
  {
    StartLaidOut();
  }

  lemma AddFieldInv(s: Parser, kind: nat, data: nat)
    requires Inv(s) && kind < 3
    ensures Inv(AddField(s, kind, data))
  {
    hide AddField, LaidOut, LargestOk, ItemsOk;
    LaidOutWf(s);
    AddFieldLaidOut(s, kind, data);
    AddFieldLargest(s, kind, data);
    AddFieldItems(s, kind, data);
  }

  lemma {:induction false} AddFieldsInv(s: Parser, kind: nat, data: nat, n: nat)
    requires Inv(s) && kind < 3
    ensures Wf(s) && Inv(AddFields(s, kind, data, n))
  {
    hide AddField, Inv;
    InvWf(s);
    if n > 0 {
      AddFieldsInv(s, kind, data, n - 1);
      AddFieldInv(AddFields(s, kind, data, n - 1), kind, data);
    }
  }

  lemma SelectReportInv(s: Parser, id: nat)
    requires Inv(s)
    ensures Wf(s) && Inv(SelectReport(s, id))
  {
    hide SelectReport, LaidOut, LargestOk, ItemsOk;
    LaidOutWf(s);
    SelectReportLaidOut(s, id);
    SelectReportLargest(s, id);
    SelectReportFound(s, id);
  }

  /** The invariant is about reports and fields alone. */
  lemma SameReports(s: Parser, s': Parser)
    requires Inv(s) && Wf(s') && s'.reports == s.reports && s'.found == s.found
    ensures Inv(s')
  {
    hide Taken, Packed, Measured, UniqueIds, InReports, ItemsOk, BitsOf;
  }

  lemma StepInv(lim: Limits, s: Parser, tag: nat, wide: bool, data: nat)
    requires Inv(s)
    ensures Wf(s)
    ensures var o := Step(lim, s, tag, wide, data); o.Ok? ==> Inv(o.s)
  {
    hide Inv, AddFields, SelectReport;
    InvWf(s);
    var o := Step(lim, s, tag, wide, data);
    if o.Ok? {
      if tag == REPORT_ID {
        SelectReportInv(s, data % W8);
      } else if tag == INPUT || tag == OUTPUT || tag == FEATURE {
        AddFieldsInv(s, KindOf(tag), data, Top(s).count);
        SameReports(AddFields(s, KindOf(tag), data, Top(s).count), o.s);
      } else {
        SameReports(s, o.s);
      }
    }
  }

  lemma SelectReportFound(s: Parser, id: nat)
    requires Wf(s) && ItemsOk(s.found)
    ensures ItemsOk(SelectReport(s, id).found)
  {
    hide Kept, Matches, FindReport;
  }

  /** Every parse, of any well-formed descriptor, keeps the invariant. */
  lemma {:induction false} InterpretInv(lim: Limits, s: Parser, d: seq<byte>)
    requires Inv(s) && WellFormed(d)
    ensures var o := Interpret(lim, s, d); o.Ok? ==> Inv(o.s)
    decreases |d|
  {
    hide Step, Inv, Number, Wf, DataLen;
    InvWf(s);
    if d != [] {
      var n := DataLen(d[0]);
      var o := Step(lim, s, d[0] - d[0] % 4, n == 4, Number(d[1..1 + n]));
      StepInv(lim, s, d[0] - d[0] % 4, n == 4, Number(d[1..1 + n]));
      if o.Ok? {
        InterpretInv(lim, o.s, d[1 + n..]);
      }
    }
  }

  /** Where a field lies, as long as no size has wrapped around. */
  lemma FieldAt(s: Parser, i: nat)
    requires LaidOut(s) && NoWrap(s) && i < |s.found.fields|
    ensures var f := s.found.fields[i];
            && f.slot < |s.reports| && f.kind < 3
            && f.offset == Taken(s.found.fields[..i], f.slot, f.kind)
            && f.offset + f.size == Taken(s.found.fields[..i + 1], f.slot, f.kind)
            && f.offset + f.size <= BitsOf(s.reports, f.slot, f.kind)
  {
    hide Taken, Measured;
    var fs := s.found.fields;
    var f := fs[i];
    assert fs[..i + 1] == fs[..i] + [f];
    TakenAppend(fs[..i], f, f.slot, f.kind);
    TakenMonotone(fs, i, f.slot, f.kind);
    TakenMonotone(fs, i + 1, f.slot, f.kind);
    MeasuredAt(s, f.slot, f.kind);
  }

  /** Fields of the same report and kind follow each other without overlap, inside the report. */
  lemma FieldsDisjoint(s: Parser, i: nat, j: nat)
    requires LaidOut(s) && NoWrap(s) && i < j < |s.found.fields|
    requires var f := s.found.fields; f[i].slot == f[j].slot && f[i].kind == f[j].kind
    ensures var f := s.found.fields;
            && f[i].offset + f[i].size <= f[j].offset
            && f[j].offset + f[j].size <= BitsOf(s.reports, f[j].slot, f[j].kind)
  {
    hide Taken, Measured, Packed;
    var f := s.found.fields;
    FieldAt(s, i);
    FieldAt(s, j);
    assert f[..j][..i + 1] == f[..i + 1];
    TakenMonotone(f[..j], i + 1, f[j].slot, f[j].kind);
  }

  // Fields and report IDs

  /** The field lies in the report whose ID it carries. */
  predicate Owned(reports: seq<Report>, f: Field) {
    f.slot < |reports| && reports[f.slot].id == f.id
  }

  predicate AllOwned(s: Parser) {
    forall i :: 0 <= i < |s.found.fields| ==> Owned(s.reports, s.found.fields[i])
  }

  /** The ID in the global state is that of the current report. */
  predicate Aligned(s: Parser)
    requires Wf(s)
  {
    s.reports[s.cur].id == Top(s).id
  }

  /** The item is the first REPORT ID, and comes too late: it names a report that has fields. */
  predicate Renames(s: Parser, tag: nat, data: nat) {
    tag == REPORT_ID && !s.found.usingIds && data % W8 != 0 && s.found.fields != []
  }

  /** No INPUT, OUTPUT or FEATURE item with fields meets a misaligned parser, and no REPORT ID item
      comes too late. */
  predicate AlignedRun(lim: Limits, s: Parser, d: seq<byte>)
    requires Wf(s) && WellFormed(d)
    decreases |d|
  {
    if d == [] then true
    else
      var n := DataLen(d[0]);
      var tag := d[0] - d[0] % 4;
      var o := Step(lim, s, tag, n == 4, Number(d[1..1 + n]));
      && (IsFieldItem(tag) && Top(s).count > 0 ==> Aligned(s))
      && !Renames(s, tag, Number(d[1..1 + n]))
      && (o.Ok? ==> AlignedRun(lim, o.s, d[1 + n..]))
  }

  predicate IsFieldItem(tag: nat) {
    tag == INPUT || tag == OUTPUT || tag == FEATURE
  }

  /** No global state has a report ID. */
  predicate NoIds(s: Parser) {
    forall i :: 0 <= i < |s.states| ==> s.states[i].id == 0
  }

  /** Before the first REPORT ID item nothing has an ID. */
  predicate IdsFixed(s: Parser) {
    && Wf(s)
    && InReports(s.reports, s.found.fields)
    && (!s.found.usingIds ==>
          && s.cur == 0 && |s.reports| == 1 && s.reports[0].id == 0
          && NoIds(s)
          && (forall i :: 0 <= i < |s.found.fields| ==> s.found.fields[i].id == 0))
  }

  /** Fields stay, and stay with or without the report whose ID they carry once there are IDs. */
  ghost predicate KeepsOwners(s: Parser, s': Parser) {
    && IdsFixed(s')
    && s.found.fields <= s'.found.fields
    && (forall i :: 0 <= i < |s.found.fields| && !Owned(s.reports, s.found.fields[i]) ==>
          !Owned(s'.reports, s.found.fields[i]))
  }

  lemma AddFieldOwners(s: Parser, kind: nat, data: nat)
    requires IdsFixed(s) && kind < 3
    ensures var s' := AddField(s, kind, data);
            && KeepsOwners(s, s') && Top(s') == Top(s)
            && (Aligned(s') == Aligned(s))
            && AllOwned(s') == (AllOwned(s) && Aligned(s))
  {
    hide Keeps, NextUsage, NoteVendor;
    var s' := AddField(s, kind, data);
    var f := s'.found.fields[|s.found.fields|];
    assert s'.found.fields == s.found.fields + [f];
    assert Owned(s'.reports, f) == Aligned(s);
    forall i | 0 <= i < |s.found.fields|
      ensures Owned(s'.reports, s.found.fields[i]) == Owned(s.reports, s.found.fields[i])
      ensures s'.found.fields[i] == s.found.fields[i]
    {
    }
  }

  lemma {:induction false} AddFieldsOwners(s: Parser, kind: nat, data: nat, n: nat)
    requires IdsFixed(s) && kind < 3
    ensures var s' := AddFields(s, kind, data, n);
            && KeepsOwners(s, s') && Top(s') == Top(s)
            && (Aligned(s') == Aligned(s))
            && AllOwned(s') == (AllOwned(s) && (n > 0 ==> Aligned(s)))
  {
    hide AddField, Aligned, Owned, AllOwned;
    if n > 0 {
      AddFieldsOwners(s, kind, data, n - 1);
      var s1 := AddFields(s, kind, data, n - 1);
      AddFieldOwners(s1, kind, data);
      var s2 := AddField(s1, kind, data);
      forall i | 0 <= i < |s.found.fields| && !Owned(s.reports, s.found.fields[i])
        ensures !Owned(s2.reports, s.found.fields[i])
      {
        assert s1.found.fields[i] == s.found.fields[i];
      }
    }
  }

  lemma SelectReportOwners(s: Parser, id: nat)
    requires IdsFixed(s)
    ensures var s' := SelectReport(s, id);
            && KeepsOwners(s, s') && s'.found.fields == s.found.fields
            && Aligned(s')
            && AllOwned(s') == (AllOwned(s) && (s.found.usingIds || id == 0 || s.found.fields == []))
  {
    hide FindReport;
    var s' := SelectReport(s, id);
    if s.found.usingIds {
      forall i | 0 <= i < |s.found.fields|
        ensures Owned(s'.reports, s.found.fields[i]) == Owned(s.reports, s.found.fields[i])
      {
      }
    } else {
      assert s'.reports == [s.reports[0].(id := id)];
      if id != 0 && s.found.fields != [] {
        assert !Owned(s'.reports, s'.found.fields[0]);
      }
    }
  }

  /** What keeps every field with its report, item by item. */
  predicate KeepsAligned(s: Parser, tag: nat, data: nat)
    requires Wf(s)
  {
    (IsFieldItem(tag) && Top(s).count > 0 ==> Aligned(s)) && !Renames(s, tag, data)
  }

  lemma StepOwners(lim: Limits, s: Parser, tag: nat, wide: bool, data: nat)
    requires IdsFixed(s) && Step(lim, s, tag, wide, data).Ok?
    ensures var s' := Step(lim, s, tag, wide, data).s;
            && KeepsOwners(s, s')
            && AllOwned(s') == (AllOwned(s) && KeepsAligned(s, tag, data))
  {
    hide AddFields, SelectReport, Owned;
    if tag == REPORT_ID {
      SelectReportOwners(s, data % W8);
      hide IdsFixed, AllOwned;
    } else if IsFieldItem(tag) {
      AddFieldsOwners(s, KindOf(tag), data, Top(s).count);
      hide AllOwned;
    } else {
      OtherOwners(lim, s, tag, wide, data);
    }
  }

  lemma OtherOwners(lim: Limits, s: Parser, tag: nat, wide: bool, data: nat)
    requires IdsFixed(s) && Step(lim, s, tag, wide, data).Ok? && tag != REPORT_ID && !IsFieldItem(tag)
    ensures var s' := Step(lim, s, tag, wide, data).s; KeepsOwners(s, s') && AllOwned(s') == AllOwned(s)
  {
    hide IdsFixed, Owned, AllOwned, KeepsOwners, Step;
    IdsFixedWf(s);
    OtherSteps(lim, s, tag, wide, data);
    SameOwners(s, Step(lim, s, tag, wide, data).s);
  }

  /** The other items leave reports and fields as they are, and give no global state an ID. */
  lemma OtherSteps(lim: Limits, s: Parser, tag: nat, wide: bool, data: nat)
    requires Wf(s) && Step(lim, s, tag, wide, data).Ok? && tag != REPORT_ID && !IsFieldItem(tag)
    ensures var s' := Step(lim, s, tag, wide, data).s;
            && s'.reports == s.reports && s'.cur == s.cur && s'.found == s.found
            && (NoIds(s) ==> NoIds(s'))
  {
    hide AddFields, SelectReport, WfReport, SetGlobal, AddUsage, OpenCollection;
    if tag == COLLECTION {
      OpenKeeps(s, data);
    } else if tag == USAGE {
      UsageKeeps(lim, s, wide, data);
    } else {
      GlobalKeeps(s, tag, data);
    }
  }

  lemma OpenKeeps(s: Parser, data: nat)
    requires Wf(s)
    ensures var s' := OpenCollection(s, data);
            s'.reports == s.reports && s'.cur == s.cur && s'.found == s.found && s'.states == s.states
  {
  }

  lemma UsageKeeps(lim: Limits, s: Parser, wide: bool, data: nat)
    requires Wf(s) && AddUsage(lim, s, wide, data).Ok?
    ensures var s' := AddUsage(lim, s, wide, data).s;
            s'.reports == s.reports && s'.cur == s.cur && s'.found == s.found && (NoIds(s) ==> NoIds(s'))
    ensures Wf(AddUsage(lim, s, wide, data).s) && Top(AddUsage(lim, s, wide, data).s).id == Top(s).id
  {
  }

  lemma GlobalKeeps(s: Parser, tag: nat, data: nat)
    requires Wf(s)
    ensures var s' := SetGlobal(s, tag, data);
            && Wf(s') && Top(s').id == Top(s).id
            && s'.reports == s.reports && s'.cur == s.cur && s'.found == s.found && (NoIds(s) ==> NoIds(s'))
  {
  }

  lemma SameOwners(s: Parser, s': Parser)
    requires IdsFixed(s) && Wf(s') && s'.reports == s.reports && s'.cur == s.cur && s'.found == s.found
    requires NoIds(s) ==> NoIds(s')
    ensures KeepsOwners(s, s') && AllOwned(s') == AllOwned(s)
  {
    hide Owned, InReports, WfReport;
  }

  /** A field outside its report stays outside. */
  lemma {:induction false} UnownedStays(lim: Limits, s: Parser, d: seq<byte>)
    requires IdsFixed(s) && WellFormed(d) && !AllOwned(s) && Interpret(lim, s, d).Ok?
    ensures !AllOwned(Interpret(lim, s, d).s)
    decreases |d|
  {
    hide Step, IdsFixed, AllOwned, Number;
    IdsFixedWf(s);
    if d != [] {
      var n := DataLen(d[0]);
      StepOwners(lim, s, d[0] - d[0] % 4, n == 4, Number(d[1..1 + n]));
      UnownedStays(lim, Step(lim, s, d[0] - d[0] % 4, n == 4, Number(d[1..1 + n])).s, d[1 + n..]);
    }
  }

  lemma IdsFixedWf(s: Parser)
    requires IdsFixed(s)
    ensures Wf(s)
  {
  }

  /** Every field lies in the report whose ID it carries exactly if no item with fields meets a
      global state that names another report than the current one, and the first REPORT ID, unless
      it is 0, comes before all fields. */
  lemma {:induction false} OwnedIffAligned(lim: Limits, s: Parser, d: seq<byte>)
    requires IdsFixed(s) && WellFormed(d) && AllOwned(s) && Interpret(lim, s, d).Ok?
    ensures AllOwned(Interpret(lim, s, d).s) <==> AlignedRun(lim, s, d)
    decreases |d|
  {
    hide Step, IdsFixed, AllOwned, Number, Aligned, IsFieldItem, Renames;
    IdsFixedWf(s);
    if d != [] {
      var n := DataLen(d[0]);
      var tag := d[0] - d[0] % 4;
      var data := Number(d[1..1 + n]);
      var s' := Step(lim, s, tag, n == 4, data).s;
      StepOwners(lim, s, tag, n == 4, data);
      if !KeepsAligned(s, tag, data) {
        UnownedStays(lim, s', d[1 + n..]);
      } else {
        OwnedIffAligned(lim, s', d[1 + n..]);
      }
    }
  }

  lemma StartFixed()
    ensures IdsFixed(START) && AllOwned(START) && Aligned(START)
  {
  }

  /** No POP brings back another report ID than the one it leaves, and the first REPORT ID comes
      before all fields. */
  predicate SameIdPops(lim: Limits, s: Parser, d: seq<byte>)
    requires Wf(s) && WellFormed(d)
    decreases |d|
  {
    if d == [] then true
    else
      var n := DataLen(d[0]);
      var tag := d[0] - d[0] % 4;
      var o := Step(lim, s, tag, n == 4, Number(d[1..1 + n]));
      && (tag == POP && |s.states| > 1 ==> s.states[|s.states| - 2].id == Top(s).id)
      && !Renames(s, tag, Number(d[1..1 + n]))
      && (o.Ok? ==> SameIdPops(lim, o.s, d[1 + n..]))
  }

  lemma StepAligned(lim: Limits, s: Parser, tag: nat, wide: bool, data: nat)
    requires IdsFixed(s) && Aligned(s) && Step(lim, s, tag, wide, data).Ok?
    requires tag == POP && |s.states| > 1 ==> s.states[|s.states| - 2].id == Top(s).id
    ensures Aligned(Step(lim, s, tag, wide, data).s)
  {
    hide AddFields, SelectReport, WfReport, SetGlobal, AddUsage, OpenCollection, KeepsOwners, AllOwned, NoIds;
    if tag == REPORT_ID {
      SelectReportOwners(s, data % W8);
    } else if IsFieldItem(tag) {
      AddFieldsOwners(s, KindOf(tag), data, Top(s).count);
    } else if tag == COLLECTION {
      OpenKeeps(s, data);
    } else if tag == USAGE {
      UsageKeeps(lim, s, wide, data);
    } else {
      GlobalKeeps(s, tag, data);
    }
  }

  /** Descriptors without a change of report ID between PUSH and POP, and with the first REPORT ID
      before all fields, are aligned throughout. */
  lemma {:induction false} SameIdPopsAligned(lim: Limits, s: Parser, d: seq<byte>)
    requires IdsFixed(s) && Aligned(s) && WellFormed(d) && SameIdPops(lim, s, d)
    ensures AlignedRun(lim, s, d)
    decreases |d|
  {
    hide Step, IdsFixed, AllOwned, Number, Aligned, IsFieldItem;
    IdsFixedWf(s);
    if d != [] {
      var n := DataLen(d[0]);
      var tag := d[0] - d[0] % 4;
      var data := Number(d[1..1 + n]);
      if Step(lim, s, tag, n == 4, data).Ok? {
        StepOwners(lim, s, tag, n == 4, data);
        StepAligned(lim, s, tag, n == 4, data);
        SameIdPopsAligned(lim, Step(lim, s, tag, n == 4, data).s, d[1 + n..]);
      }
    }
  }

  /** The main result on layout. For every descriptor whose reports stay below 2^16 bits: report IDs
      are unique, the largest size is the maximum over all reports, and there are as many items as
      counted modulo 256. If every field is laid out in the report whose ID it carries, items of one
      report occupy increasing, disjoint bit ranges within that report. */
  lemma ParsedLayout(lim: Limits, d: seq<byte>)
    requires WellFormed(d) && Parse(lim, d).Ok? && NoWrap(Parse(lim, d).s)
    ensures var s := Parse(lim, d).s;
            && UniqueIds(s.reports)
            && Attained(s)
            && (forall slot, kind :: 0 <= slot < |s.reports| && 0 <= kind < 3 ==>
                  BitsOf(s.reports, slot, kind) <= s.found.largest)
            && s.found.total == |s.found.items| % W8
            && (forall k :: 0 <= k < |s.found.items| ==> Inside(s, s.found.items[k]))
            && (AlignedRun(lim, START, d) ==> forall k, l :: 0 <= k < l < |s.found.items| ==> Apart(s, k, l))
  {
    hide Interpret, LaidOut, AlignedRun, NoWrap, UniqueIds, Attained, Kept, BitsOf, AllOwned, Inside;
    StartInv();
    StartFixed();
    InterpretInv(lim, START, d);
    OwnedIffAligned(lim, START, d);
    var s := Parse(lim, d).s;
    LaidOutUnique(s);
    forall k | 0 <= k < |s.found.items|
      ensures Inside(s, s.found.items[k])
    {
      ItemInside(s, k);
    }
    if AlignedRun(lim, START, d) {
      forall k, l | 0 <= k < l < |s.found.items|
        ensures Apart(s, k, l)
      {
        ItemsApart(s, k, l);
      }
    }
  }

  lemma LaidOutUnique(s: Parser)
    requires LaidOut(s)
    ensures UniqueIds(s.reports)
  {
  }

  /** Items `k` and `l` of one report do not overlap, and lie within the report. */
  ghost predicate Apart(s: Parser, k: nat, l: nat)
    requires k < l < |s.found.items|
  {
    var a, b := s.found.items[k], s.found.items[l];
    a.id == b.id ==>
      && a.offset + a.attrs.bitSize <= b.offset
      && exists slot ::
           && 0 <= slot < |s.reports| && s.reports[slot].id == b.id
           && b.offset + b.attrs.bitSize <= BitsOf(s.reports, slot, IN)
  }

  /** An item ends within the largest report. */
  predicate Inside(s: Parser, item: Item) {
    item.offset + item.attrs.bitSize <= s.found.largest
  }

  lemma ItemInside(s: Parser, k: nat)
    requires Inv(s) && NoWrap(s) && k < |s.found.items|
    ensures Inside(s, s.found.items[k])
  {
    hide Kept, LaidOut, Taken, BitsOf, Position, Attained;
    var fs := s.found.fields;
    assert Matches(s.found.items[k], fs[Position(fs, k)]);
    FieldAt(s, Position(fs, k));
  }

  lemma ItemsApart(s: Parser, k: nat, l: nat)
    requires Inv(s) && NoWrap(s) && AllOwned(s)
    requires k < l < |s.found.items|
    ensures Apart(s, k, l)
  {
    hide Kept, LargestOk, LaidOut, Taken, BitsOf, Position;
    var fs := s.found.fields;
    PositionsIncrease(fs, k, l);
    var i, j := Position(fs, k), Position(fs, l);
    var a, b := s.found.items[k], s.found.items[l];
    assert Matches(a, fs[i]) && Matches(b, fs[j]);
    assert Owned(s.reports, fs[i]) && Owned(s.reports, fs[j]);
    if a.id == b.id {
      LaidOutUnique(s);
      assert fs[i].slot == fs[j].slot;
      FieldsDisjoint(s, i, j);
      assert b.offset + b.attrs.bitSize <= BitsOf(s.reports, fs[j].slot, IN);
    }
  }

  /** A bit that two items of one ID have in common. */
  predicate Share(s: Parser, k: nat, l: nat, bit: nat)
    requires k < |s.found.items| && l < |s.found.items|
  {
    var a, b := s.found.items[k], s.found.items[l];
    a.id == b.id && a.offset <= bit < a.offset + a.attrs.bitSize && b.offset <= bit < b.offset + b.attrs.bitSize
  }

  /** In any descriptor at all, whatever its alignment, items of one ID share a bit only if they were laid out in
      two different reports, so that at least one of them lies in a report with another ID. */
  lemma SharedBitMisplaced(lim: Limits, d: seq<byte>, k: nat, l: nat, bit: nat)
    requires WellFormed(d) && Parse(lim, d).Ok? && NoWrap(Parse(lim, d).s)
    requires k < l < |Parse(lim, d).s.found.items| && Share(Parse(lim, d).s, k, l, bit)
    ensures var s := Parse(lim, d).s;
            && |s.found.items| == |Kept(s.found.fields)|
            && var a, b := Kept(s.found.fields)[k], Kept(s.found.fields)[l];
               && Matches(s.found.items[k], a) && Matches(s.found.items[l], b)
               && a.slot != b.slot && (!Owned(s.reports, a) || !Owned(s.reports, b))
  {
    hide Interpret, LargestOk, LaidOut, NoWrap, Kept, BitsOf, Taken, Position;
    StartInv();
    InterpretInv(lim, START, d);
    var s := Parse(lim, d).s;
    var fs := s.found.fields;
    PositionsIncrease(fs, k, l);
    LaidOutUnique(s);
    var i, j := Position(fs, k), Position(fs, l);
    assert Matches(s.found.items[k], fs[i]) && Matches(s.found.items[l], fs[j]);
    if fs[i].slot == fs[j].slot {
      FieldsDisjoint(s, i, j);
    }
  }

  // Descriptors whose items overlap

  /** The stack depths the program is built with. */
  const DEFAULTS := Limits(2, 16)

  /** An item with one byte of data, and what follows it. */
  lemma ShortItem(s: Parser, tag: byte, data: byte, rest: seq<byte>)
    requires Wf(s) && WellFormed(rest) && tag % 4 == 0 && tag < 252
    ensures var d := [tag + 1, data] + rest;
            && WellFormed(d)
            && var o := Step(DEFAULTS, s, tag, false, data);
               Interpret(DEFAULTS, s, d) == if o.Ok? then Interpret(DEFAULTS, o.s, rest) else o
  {
    hide Step, Number;
    var d := [tag + 1, data] + rest;
    assert d[2..] == rest && d[1..2] == [data];
    OneByte(data);
  }

  lemma OneByte(data: byte)
    ensures Number([data]) == data as int
  {
    assert [data][1..] == [];
    assert Number([]) == 0;
  }

  /** An item without data, and what follows it. */
  lemma BareItem(s: Parser, tag: byte, rest: seq<byte>)
    requires Wf(s) && WellFormed(rest) && tag % 4 == 0
    ensures var d := [tag] + rest;
            && WellFormed(d)
            && var o := Step(DEFAULTS, s, tag, false, 0);
               Interpret(DEFAULTS, s, d) == if o.Ok? then Interpret(DEFAULTS, o.s, rest) else o
  {
    hide Step;
    var d := [tag] + rest;
    assert d[1..] == rest && d[1..1] == [];
  }

  /** Button page, REPORT SIZE 8, REPORT COUNT 1: a button of 8 bits. */
  const KEY: seq<byte> := [0x05, PAGE_BUTTON, 0x75, 8, 0x95, 1]

  function KeyState(id: nat): Global {
    Global(NO_ATTRS.(page := PAGE_BUTTON, bitSize := 8), 1, id)
  }

  /** The item made of it at the beginning of a report. */
  function KeyItem(id: nat): Item {
    Item(0, IN, 2, id, NO_ATTRS.(page := PAGE_BUTTON, bitSize := 8))
  }

  /** The parser after the field was laid out as the first of the current report. */
  function Pressed(s: Parser, id: nat): Parser
    requires Wf(s)
  {
    s.(reports := s.reports[s.cur := Report(s.reports[s.cur].id, [8, 0, 0])],
       found := s.found.(items := s.found.items + [KeyItem(id)], total := (s.found.total + 1) % W8,
                         largest := Max(s.found.largest, 8),
                         fields := s.found.fields + [Field(s.cur, IN, 0, 8, id, true)]))
  }

  /** No local items, and an empty current report. */
  predicate Clear(s: Parser) {
    Wf(s) && s.usages == [] && s.usageMin == 0 && s.usageMax == 0 && s.reports[s.cur].bits == [0, 0, 0]
  }

  lemma KeyField(s: Parser, id: nat, rest: seq<byte>)
    requires Clear(s) && s.states == [KeyState(id)] && WellFormed(rest)
    ensures WellFormed([0x81, 2] + rest) && Wf(Pressed(s, id))
    ensures Interpret(DEFAULTS, s, [0x81, 2] + rest) == Interpret(DEFAULTS, Pressed(s, id), rest)
  {
    assert AddFields(s, IN, 2, 0) == s;
    assert [8, 0, 0] == [0, 0, 0][0 := 8];
    assert EndOfMain(AddField(s, IN, 2)) == Pressed(s, id);
    assert Step(DEFAULTS, s, INPUT, false, 2) == Ok(Pressed(s, id));
    hide Step, Interpret, WellFormed;
    ShortItem(s, INPUT, 2, rest);
  }

  lemma GlobalStep(s: Parser, tag: nat, data: nat)
    requires Wf(s) && |s.states| == 1 && tag in {USAGE_PAGE, REPORT_SIZE, REPORT_COUNT} && data < W8
    ensures var g := s.states[0];
            Step(DEFAULTS, s, tag, false, data)
            == Ok(s.(states := [if tag == USAGE_PAGE then g.(attrs := g.attrs.(page := data))
                                else if tag == REPORT_SIZE then g.(attrs := g.attrs.(bitSize := data))
                                else g.(count := data)]))
  {
  }

  lemma KeyDeclared(s: Parser, id: nat, rest: seq<byte>)
    requires Wf(s) && s.states == [Global(NO_ATTRS, 0, id)] && WellFormed(rest)
    ensures WellFormed(KEY + rest)
    ensures Interpret(DEFAULTS, s, KEY + rest) == Interpret(DEFAULTS, s.(states := [KeyState(id)]), rest)
  {
    hide Interpret, WellFormed, Step, WfReport;
    var s1 := s.(states := [Global(NO_ATTRS.(page := PAGE_BUTTON), 0, id)]);
    var s2 := s.(states := [Global(NO_ATTRS.(page := PAGE_BUTTON, bitSize := 8), 0, id)]);
    GlobalStep(s, USAGE_PAGE, PAGE_BUTTON);
    GlobalStep(s1, REPORT_SIZE, 8);
    GlobalStep(s2, REPORT_COUNT, 1);
    var r2: seq<byte> := [0x95, 1] + rest;
    var r1: seq<byte> := [0x75, 8] + r2;
    assert KEY + rest == [0x05, PAGE_BUTTON] + r1;
    ShortItem(s2, REPORT_COUNT, 1, rest);
    ShortItem(s1, REPORT_SIZE, 8, r2);
    ShortItem(s, USAGE_PAGE, PAGE_BUTTON, r1);
  }

  lemma IdItem(s: Parser, id: byte, rest: seq<byte>)
    requires Wf(s) && WellFormed(rest)
    ensures WellFormed([0x85, id] + rest)
    ensures Interpret(DEFAULTS, s, [0x85, id] + rest) == Interpret(DEFAULTS, SelectReport(s, id), rest)
  {
    hide SelectReport, Interpret, WellFormed;
    ShortItem(s, REPORT_ID, id, rest);
  }

  /** A REPORT ID that no report has. */
  lemma NewId(s: Parser, id: nat)
    requires Wf(s) && s.found.usingIds && forall i :: 0 <= i < |s.reports| ==> s.reports[i].id != id
    ensures SelectReport(s, id)
            == SetTop(s, Top(s).(id := id)).(reports := s.reports + [Report(id, [0, 0, 0])], cur := |s.reports|,
                 found := s.found.(deviceReports := (s.found.deviceReports + 1) % W8))
  {
  }

  lemma FirstId(s: Parser, id: nat)
    requires Wf(s) && !s.found.usingIds
    ensures SelectReport(s, id)
            == SetTop(s, Top(s).(id := id)).(reports := s.reports[s.cur := s.reports[s.cur].(id := id)],
                 found := s.found.(usingIds := true))
  {
  }

  lemma Ended(s: Parser)
    requires Wf(s)
    ensures WellFormed([]) && Interpret(DEFAULTS, s, []) == Ok(s)
  {
  }

  lemma RenamedStates() returns (s0: Parser, s1: Parser, s2: Parser, s3: Parser, s4: Parser)
    ensures s0 == START.(states := [KeyState(0)]) && Clear(s0) && s0.states == [KeyState(0)]
    ensures Wf(s0) && Wf(s1) && Wf(s2) && Wf(s3) && Wf(s4)
    ensures s1 == Pressed(s0, 0) && s2 == SelectReport(s1, 1) && s3 == SelectReport(s2, 0) && s4 == Pressed(s3, 0)
    ensures Clear(s3) && s3.states == [KeyState(0)]
    ensures s4.found.items == [KeyItem(0), KeyItem(0)] && s4.found.total == 2
  {
    s0 := START.(states := [KeyState(0)]);
    s1 := Pressed(s0, 0);
    FirstId(s1, 1);
    s2 := SelectReport(s1, 1);
    NewId(s2, 0);
    s3 := SelectReport(s2, 0);
    hide FindReport, SelectReport;
    s4 := Pressed(s3, 0);
  }

  /** The field, REPORT ID 1, REPORT ID 0, the field again: the first field's report is named 1 and a
      new one gets ID 0, so both items carry ID 0 and start at bit 0. */
  lemma RenamedIdOverlaps()
    ensures var d := KEY + [0x81, 2, 0x85, 1, 0x85, 0, 0x81, 2];
            && WellFormed(d) && Parse(DEFAULTS, d).Ok?
            && Parse(DEFAULTS, d).s.found.items == [KeyItem(0), KeyItem(0)]
  {
    hide Interpret, WellFormed, SelectReport, Wf, Pressed, Clear;
    var s0, s1, s2, s3, s4 := RenamedStates();
    var none: seq<byte> := [];
    var r3: seq<byte> := [0x81, 2] + none;
    var r2: seq<byte> := [0x85, 0] + r3;
    var r1: seq<byte> := [0x85, 1] + r2;
    var r0: seq<byte> := [0x81, 2] + r1;
    assert KEY + [0x81, 2, 0x85, 1, 0x85, 0, 0x81, 2] == KEY + r0;
    Ended(s4);
    KeyField(s3, 0, none);
    IdItem(s2, 0, r3);
    IdItem(s1, 1, r2);
    KeyField(s0, 0, r1);
    StartClear();
    KeyDeclared(START, 0, r0);
  }

  lemma StartClear()
    ensures Wf(START) && START.states == [Global(NO_ATTRS, 0, 0)]
  {
  }

  lemma PushedStates() returns (s0: Parser, s1: Parser, s2: Parser, s3: Parser, s4: Parser, s5: Parser, s6: Parser)
    ensures s0 == SelectReport(START, 1) && s0.states == [Global(NO_ATTRS, 0, 1)]
    ensures Wf(s0) && Wf(s1) && Wf(s2) && Wf(s3) && Wf(s4) && Wf(s5) && Wf(s6)
    ensures s1 == s0.(states := [KeyState(1)]) && Clear(s1) && s2 == Pressed(s1, 1)
    ensures Step(DEFAULTS, s2, PUSH, false, 0) == Ok(s3) && s4 == SelectReport(s3, 2)
    ensures Step(DEFAULTS, s4, POP, false, 0) == Ok(s5) && Clear(s5) && s5.states == [KeyState(1)]
    ensures s6 == Pressed(s5, 1)
    ensures s6.found.items == [KeyItem(1), KeyItem(1)] && s6.found.total == 2
  {
    FirstId(START, 1);
    s0 := SelectReport(START, 1);
    s1 := s0.(states := [KeyState(1)]);
    s2 := Pressed(s1, 1);
    s3 := s2.(states := [KeyState(1), KeyState(1)]);
    NewId(s3, 2);
    s4 := SelectReport(s3, 2);
    hide FindReport, SelectReport;
    s5 := s4.(states := [KeyState(1)]);
    s6 := Pressed(s5, 1);
  }

  /** REPORT ID 1 with the field; PUSH, REPORT ID 2, POP; the field again: the report with ID 2 stays
      current, so both items carry ID 1 and start at bit 0. */
  lemma PushedIdOverlaps()
    ensures var d := [0x85, 1] + KEY + [0x81, 2, PUSH, 0x85, 2, POP, 0x81, 2];
            && WellFormed(d) && Parse(DEFAULTS, d).Ok?
            && Parse(DEFAULTS, d).s.found.items == [KeyItem(1), KeyItem(1)]
  {
    hide Interpret, WellFormed, SelectReport, Wf, Pressed, Clear, Step;
    var s0, s1, s2, s3, s4, s5, s6 := PushedStates();
    var none: seq<byte> := [];
    var r4: seq<byte> := [0x81, 2] + none;
    var r3: seq<byte> := [POP] + r4;
    var r2: seq<byte> := [0x85, 2] + r3;
    var r1: seq<byte> := [PUSH] + r2;
    var r0: seq<byte> := [0x81, 2] + r1;
    assert [0x85, 1] + KEY + [0x81, 2, PUSH, 0x85, 2, POP, 0x81, 2] == [0x85, 1] + (KEY + r0);
    Ended(s6);
    KeyField(s5, 1, none);
    BareItem(s4, POP, r4);
    IdItem(s3, 2, r3);
    BareItem(s2, PUSH, r2);
    KeyField(s1, 1, r1);
    KeyDeclared(s0, 1, r0);
    StartClear();
    IdItem(START, 1, KEY + r0);
  }
}
