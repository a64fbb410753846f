/** The report-descriptor parser as the firmware runs it, on lists of pool nodes. */
module HidParser {
  import opened Bytes
  import opened HidSpec
  import opened HidPools
  import opened HidTables
  import HidMeaning

  /** How an item ended: the parse goes on, stops with an error, or finds a pool exhausted, where
      the program gives up. */
  datatype Verdict = Going | Stopped(error: Error) | Exhausted

  datatype Result = Parsed(info: int) | Failed(error: Error) | OutOfNodes

  /** The report with an ID becomes the current one, a new one if there is none. */
  ghost function Located(s: Parser, id: nat): Parser {
    var k := FindReport(s.reports, id);
    if k < |s.reports| then s.(cur := k) else s.(reports := s.reports + [NEW_REPORT], cur := |s.reports|)
  }

  /** The current report has its ID. */
  ghost function Named(s: Parser, id: nat, isNew: bool): Parser
    requires s.cur < |s.reports|
  {
    s.(reports := s.reports[s.cur := s.reports[s.cur].(id := id)],
       found := s.found.(usingIds := true, deviceReports :=
         if isNew then (s.found.deviceReports + 1) % W8 else s.found.deviceReports))
  }

  /** REPORT ID, step by step. */
  lemma SelectSteps(n: Nodes, s: Parser, id: nat)
    requires Wf(s)
    ensures var s1 := SetTop(s, Top(s).(id := id));
            if s.found.usingIds then
              var s2, isNew := Located(s1, id), FindReport(s1.reports, id) == |s1.reports|;
              && s2.cur < |s2.reports| && SelectReport(s, id) == Named(s2, id, isNew)
              && (!Room(n, s2) ==> !Room(n, SelectReport(s, id)))
            else SelectReport(s, id) == Named(s1, id, false)
  {
    hide FindReport;
  }

  ghost function Kept(s: Parser, item: Item, f: Field): Parser {
    var found := if Keeps(item) then s.found.(items := s.found.items + [item], total := (s.found.total + 1) % W8) else s.found;
    s.(found := found.(fields := found.fields + [f]))
  }

  /** A field, step by step. */
  lemma FieldSteps(s: Parser, kind: nat, data: nat)
    requires Wf(s) && kind < 3
    ensures var g := Top(s);
            var (s1, usage) := NextUsage(s, g.attrs.usage);
            var r := s.reports[s.cur];
            var r' := AddBits(r, kind, g.attrs.bitSize);
            var item := Item(r.bits[kind], kind, data % W16, g.id, g.attrs.(usage := usage));
            var s2 := s1.(reports := s.reports[s.cur := r'],
                          found := NoteVendor(s.found.(largest := Max(s.found.largest, r'.bits[kind])), kind, item.attrs));
            && WfReport(r')
            && AddField(s, kind, data)
               == Kept(s2, item, HidSpec.Field(s.cur, kind, r.bits[kind], g.attrs.bitSize, g.id, Keeps(item)))
  {
    hide Keeps, NoteVendor, NextUsage;
  }

  lemma InterpretItem(lim: Limits, s: Parser, d: seq<byte>, pos: nat)
    requires Wf(s) && pos < |d| && WellFormed(d[pos..])
    ensures var n := DataLen(d[pos]);
            var next := pos + 1 + n;
            && next <= |d| && WellFormed(d[next..])
            && Interpret(lim, s, d[pos..]) ==
                 match Step(lim, s, d[pos] - d[pos] % 4, n == 4, Number(d[pos + 1..next]))
                 case Err(e, total) => Err(e, total)
                 case Ok(s') => Interpret(lim, s', d[next..])
  {
    hide Step, Number;
    var n, rest := DataLen(d[pos]), d[pos..];
    assert rest[0] == d[pos] && d[pos + 1..pos + 1 + n] == rest[1..1 + n] && rest[1 + n..] == d[pos + 1 + n..];
  }

  lemma EnoughItem(lim: Limits, n: Nodes, s: Parser, d: seq<byte>, pos: nat)
    requires Wf(s) && pos < |d| && WellFormed(d[pos..]) && Room(n, s)
    ensures var k := DataLen(d[pos]);
            var next := pos + 1 + k;
            && next <= |d| && WellFormed(d[next..])
            && var o := Step(lim, s, d[pos] - d[pos] % 4, k == 4, Number(d[pos + 1..next]));
               Enough(lim, n, s, d[pos..]) <==> o.Err? || Enough(lim, n, o.s, d[next..])
  {
    hide Step, Number, Room;
    var k, rest := DataLen(d[pos]), d[pos..];
    assert rest[0] == d[pos] && d[pos + 1..pos + 1 + k] == rest[1..1 + k] && rest[1 + k..] == d[pos + 1 + k..];
  }

  /** What an item does, in the interpreter and with the nodes. */
  lemma ItemTurn(lim: Limits, n: Nodes, s: Parser, d: seq<byte>, pos: nat)
    requires Wf(s) && pos < |d| && WellFormed(d[pos..]) && Room(n, s)
    ensures var k := DataLen(d[pos]);
            var tag, next := d[pos] - d[pos] % 4, pos + 1 + k;
            && next <= |d| && WellFormed(d[next..])
            && var o := Act(lim, s, tag, k == 4, Number(d[pos + 1..next]));
               if o.Err? then Interpret(lim, s, d[pos..]) == o && Enough(lim, n, s, d[pos..])
               else
                 var s' := if IsMain(tag) then EndOfMain(o.s) else o.s;
                 && Wf(s') && Interpret(lim, s, d[pos..]) == Interpret(lim, s', d[next..])
                 && Enough(lim, n, s, d[pos..]) == Enough(lim, n, s', d[next..])
                 && (!Room(n, o.s) ==> !Enough(lim, n, s, d[pos..]))
  {
    hide Act, Number, Interpret;
    InterpretItem(lim, s, d, pos);
    EnoughItem(lim, n, s, d, pos);
  }

  lemma Begun(lim: Limits, n: Nodes, d: seq<byte>)
    requires WellFormed(d) && n.infos >= 1
    ensures Wf(START) && (Suffices(lim, n, d) <==> Enough(lim, n, START, d))
  {
    hide Enough;
  }

  lemma NotBegun(lim: Limits, n: Nodes, d: seq<byte>)
    requires WellFormed(d) && (n.infos < 1 || !Room(n, START))
    ensures !Suffices(lim, n, d)
  {
  }

  lemma {:induction false} NumberOf(s: seq<byte>)
    requires |s| <= 4
    ensures s == [] ==> Number(s) == 0
    ensures |s| == 1 ==> Number(s) == s[0] as int
    ensures |s| == 2 ==> Number(s) == (s[0] as int) + 256 * (s[1] as int)
    ensures |s| == 4 ==> Number(s) == (s[0] as int) + 0x100 * (s[1] as int) + 0x1_0000 * (s[2] as int) + 0x100_0000 * (s[3] as int)
  {
    if |s| > 0 {
      NumberOf(s[1..]);
      if |s| > 1 {
        NumberOf(s[2..]);
        assert s[1..][1..] == s[2..];
      }
    }
  }

  /** The data of an item, little-endian in 0, 1, 2 or 4 bytes. */
  method ReadData(s: seq<byte>) returns (data: nat)
    requires |s| <= 2 || |s| == 4
    ensures data == Number(s)
  {
    NumberOf(s);
    if |s| == 4 {
      data := (s[0] as int) + 0x100 * (s[1] as int) + 0x1_0000 * (s[2] as int) + 0x100_0000 * (s[3] as int);
    } else if |s| == 2 {
      data := (s[0] as int) + 0x100 * (s[1] as int);
    } else if |s| == 1 {
      data := s[0];
    } else {
      data := 0;
    }
  }

  class DescriptorParser {
    const limits: Limits
    const sizes: SizeTable
    const paths: PathTable
    const items: ItemTable
    var states: seq<Global>
    var usages: seq<nat>
    var usageMin: nat
    var usageMax: nat

    ghost function Repr(): set<object> {
      {sizes, sizes.pool, sizes.pool.nodes, sizes.pool.acquired,
       paths, paths.pool, paths.pool.nodes, paths.pool.acquired,
       items, items.infos, items.infos.nodes, items.infos.acquired,
       items.items, items.items.nodes, items.items.acquired}
    }

    ghost predicate Apart() {
      && sizes.pool.acquired != paths.pool.acquired
      && sizes.pool.acquired != items.infos.acquired && sizes.pool.acquired != items.items.acquired
      && paths.pool.acquired != items.infos.acquired && paths.pool.acquired != items.items.acquired
      && items.infos.acquired != items.items.acquired
    }

    /** Between two parses: the pools only. */
    ghost predicate Idle()
      reads Repr()
    {
      Apart() && sizes.pool.Valid() && paths.pool.Valid() && items.infos.Valid() && items.items.Valid()
    }

    /** The specification's state. */
    ghost function Abstract(): Parser
      reads this, sizes, paths, items
    {
      Parser(states, sizes.reports, sizes.curIdx, usages, usageMin, usageMax, paths.paths, paths.rootUsage, items.found)
    }

    ghost predicate Valid()
      reads this, Repr()
    {
      Apart() && sizes.Valid() && paths.Valid() && items.Valid() && Wf(Abstract())
    }

    /** What the pools held before the parse. */
    ghost function Before(): (map<int, SizeNode>, map<int, PathNode>, map<int, InfoNode>, map<int, ItemNode>)
      reads sizes, paths, items
    {
      (sizes.base, paths.base, items.infoBase, items.itemBase)
    }

    /** The nodes that were free before the parse. */
    ghost function Free(): Nodes
      reads sizes, paths, items
    {
      Beside(Before())
    }

    /** The nodes that are free beside given ones. */
    ghost function Beside(held: (map<int, SizeNode>, map<int, PathNode>, map<int, InfoNode>, map<int, ItemNode>)): Nodes {
      Nodes(sizes.pool.nodes.Length - |held.0|, paths.pool.nodes.Length - |held.1|,
            items.infos.nodes.Length - |held.2|, items.items.nodes.Length - |held.3|)
    }

    /** The nodes that are free between two parses. */
    ghost function Unused(): Nodes
      reads Repr()
    {
      Beside((sizes.pool.content, paths.pool.content, items.infos.content, items.items.content))
    }

    /** Whatever was reached had room. */
    lemma Fitting()
      requires Valid()
      ensures Room(Free(), Abstract()) && Free().infos >= 1
    {
      hide SizeTable.Valid, PathTable.Valid, ItemTable.Valid;
      sizes.Counted();
      paths.Counted();
      items.Counted();
    }

    ghost predicate Full()
      reads Repr()
    {
      sizes.pool.Full() || paths.pool.Full() || items.infos.Full() || items.items.Full()
    }

    constructor (limits: Limits, sizeCount: nat, pathCount: nat, infoCount: nat, itemCount: nat)
      ensures Idle() && fresh(Repr()) && this.limits == limits
      ensures sizes.pool.content == map[] && paths.pool.content == map[]
      ensures items.infos.content == map[] && items.items.content == map[]
      ensures sizes.pool.nodes.Length == sizeCount && paths.pool.nodes.Length == pathCount
      ensures items.infos.nodes.Length == infoCount && items.items.nodes.Length == itemCount
    {
      this.limits := limits;
      var s := new SizeTable(sizeCount);
      var p := new PathTable(pathCount);
      var i := new ItemTable(infoCount, itemCount);
      sizes, paths, items := s, p, i;
    }

    method TakeUsage(otherwise: nat) returns (usage: nat)
      modifies this`usages, this`usageMin
      ensures (Abstract(), usage) == NextUsage(old(Abstract()), otherwise)
      ensures if old(usages) != [] then
                usage == old(usages)[0] && usages == old(usages)[1..] && usageMin == old(usageMin)
              else
                && usages == []
                && if old(usageMin) <= usageMax then usage == old(usageMin) % W16 && usageMin == (old(usageMin) + 1) % W32
                   else usage == otherwise && usageMin == old(usageMin)
    {
      if |usages| > 0 {
        usage := usages[0];
        usages := usages[1..];
      } else if usageMin <= usageMax {
        usage := usageMin % W16;
        usageMin := (usageMin + 1) % W32;
      } else {
        usage := otherwise;
      }
    }

    /** Makes the report with an ID the current one, or begins a new one. */
    method Locate(id: nat) returns (ok: bool, isNew: bool)
      requires Valid()
      modifies sizes, sizes.pool, sizes.pool.nodes, sizes.pool.acquired
      ensures !ok ==> Full() && !Room(Free(), Located(old(Abstract()), id)) && Free() == old(Free())
      ensures ok ==> Valid() && Before() == old(Before())
      ensures ok ==> isNew == (FindReport(old(sizes.reports), id) == |old(sizes.reports)|)
      ensures ok ==> Abstract() == Located(old(Abstract()), id)
    {
      hide SizeTable.Valid, PathTable.Valid, ItemTable.Valid, Pool.Valid, FindReport;
      var found, p, k := sizes.Find(id);
      ok, isNew := true, !found;
      if found {
        sizes.Move(p, k);
      } else {
        ok := sizes.Append(p);
      }
    }

    /** Gives the current report its ID. */
    method Name(id: nat, isNew: bool)
      requires Valid()
      modifies sizes, sizes.pool, sizes.pool.nodes, items`found, items.infos, items.infos.nodes
      ensures Valid() && Before() == old(Before()) && Abstract() == Named(old(Abstract()), id, isNew)
    {
      hide SizeTable.Valid, PathTable.Valid, ItemTable.Valid, Pool.Valid;
      items.UseIds(isNew);
      sizes.SetId(id);
    }

    method SetStateId(id: nat)
      requires Valid()
      modifies this`states
      ensures Valid() && Before() == old(Before()) && Abstract() == SetTop(old(Abstract()), Top(old(Abstract())).(id := id))
    {
      hide SizeTable.Valid, PathTable.Valid, ItemTable.Valid;
      states := states[|states| - 1 := states[|states| - 1].(id := id)];
    }

    /** REPORT ID. */
    method Select(id: nat) returns (v: Verdict)
      requires Valid()
      modifies this`states, Repr()
      ensures v == Going || (v == Exhausted && Full() && !Room(old(Free()), SelectReport(old(Abstract()), id)))
      ensures v == Going ==> Valid() && Before() == old(Before())
      ensures v == Going ==> Abstract() == SelectReport(old(Abstract()), id)
    {
      hide SizeTable.Valid, PathTable.Valid, ItemTable.Valid, Pool.Valid, FindReport;
      var using := items.UsesIds();
      assert using == Abstract().found.usingIds;
      SelectSteps(Free(), Abstract(), id);
      hide Abstract, Valid, Before, Full, Beside, SelectReport, Located, Named, Room, SetTop;
      SetStateId(id);
      var isNew := false;
      if using {
        var ok;
        ok, isNew := Locate(id);
        if !ok {
          return Exhausted;
        }
      }
      Name(id, isNew);
      return Going;
    }

    /** COLLECTION. */
    method Enter(data: nat) returns (v: Verdict)
      requires Valid()
      modifies this`usages, this`usageMin, Repr()
      ensures v == Going || (v == Exhausted && Full() && !Room(old(Free()), OpenCollection(old(Abstract()), data)))
      ensures v == Going ==> Valid() && Before() == old(Before())
      ensures v == Going ==> Abstract() == OpenCollection(old(Abstract()), data)
    {
      hide SizeTable.Valid, PathTable.Valid, ItemTable.Valid, Pool.Valid;
      var ok := paths.Enter(data % W8, states[|states| - 1].attrs.page);
      if !ok {
        return Exhausted;
      }
      if |usages| > 0 || usageMin <= usageMax {
        var usage := TakeUsage(0);
        paths.SetUsage(usage);
      }
      return Going;
    }

    /** Keeps an item if it is one of those wanted. */
    method Keep(item: Item, ghost f: Field) returns (ok: bool)
      requires Valid()
      modifies items, items.infos, items.infos.nodes, items.items, items.items.nodes, items.items.acquired
      ensures !ok ==> Full() && |Kept(old(Abstract()), item, f).found.items| > old(Free()).items
      ensures ok ==> Valid() && Before() == old(Before())
      ensures ok ==> Abstract() == Kept(old(Abstract()), item, f)
    {
      hide SizeTable.Valid, PathTable.Valid, ItemTable.Valid, Pool.Valid, Keeps;
      ok := true;
      if Keeps(item) {
        ok := items.Append(item);
      }
      if ok {
        items.Lay(f);
      }
    }

    /** One field of a main item. */
    method Field(kind: nat, data: nat) returns (v: Verdict)
      requires Valid() && kind < 3
      modifies this`usages, this`usageMin, Repr()
      ensures v == Going || (v == Exhausted && Full() && |AddField(old(Abstract()), kind, data).found.items| > old(Free()).items)
      ensures v == Going ==> Valid() && Before() == old(Before())
      ensures v == Going ==> Abstract() == AddField(old(Abstract()), kind, data)
    {
      hide SizeTable.Valid, PathTable.Valid, ItemTable.Valid, Pool.Valid, Keeps, NoteVendor, AddField, Kept, NextUsage, AddBits;
      FieldSteps(Abstract(), kind, data);
      var g := states[|states| - 1];
      var usage := TakeUsage(g.attrs.usage);
      var attrs := g.attrs.(usage := usage);
      var offset, end := sizes.Reserve(kind, g.attrs.bitSize);
      items.NoteField(kind, attrs, end);
      var item := Item(offset, kind, data % W16, g.id, attrs);
      var ok := Keep(item, HidSpec.Field(sizes.curIdx, kind, offset, g.attrs.bitSize, g.id, Keeps(item)));
      return if ok then Going else Exhausted;
    }

    /** INPUT, OUTPUT and FEATURE. */
    method Fields(kind: nat, data: nat) returns (v: Verdict)
      requires Valid() && kind < 3
      modifies this`usages, this`usageMin, Repr()
      ensures v == Going ||
              (v == Exhausted && Full() &&
               !Room(old(Free()), AddFields(old(Abstract()), kind, data, Top(old(Abstract())).count)))
      ensures v == Going ==> Valid() && Before() == old(Before())
      ensures v == Going ==> Abstract() == AddFields(old(Abstract()), kind, data, Top(old(Abstract())).count)
    {
      hide SizeTable.Valid, PathTable.Valid, ItemTable.Valid, Pool.Valid, AddField;
      var i := 0;
      while i < states[|states| - 1].count
        invariant Valid() && Before() == old(Before()) && states == old(states)
        invariant i <= states[|states| - 1].count
        invariant Abstract() == AddFields(old(Abstract()), kind, data, i)
      {
        v := Field(kind, data);
        if v != Going {
          FieldsGrow(old(Abstract()), kind, data, i + 1, states[|states| - 1].count);
          return v;
        }
        i := i + 1;
      }
      return Going;
    }

    /** PUSH and POP. */
    method Stack(push: bool) returns (v: Verdict)
      requires Valid()
      modifies this`states
      ensures Valid() && v != Exhausted
      ensures v == Going ==> Outcome.Ok(Abstract()) == if push then PushState(limits, old(Abstract())) else PopState(old(Abstract()))
      ensures v.Stopped? ==> v.error != Successful
      ensures v.Stopped? ==> Err(v.error, items.found.total) == if push then PushState(limits, old(Abstract())) else PopState(old(Abstract()))
    {
      hide SizeTable.Valid, PathTable.Valid, ItemTable.Valid;
      if push {
        if |states| >= limits.states {
          return Stopped(StackOverflow);
        }
        states := states + [states[|states| - 1]];
      } else {
        if |states| == 1 {
          return Stopped(StackUnderflow);
        }
        states := states[..|states| - 1];
      }
      return Going;
    }

    /** The other global items. */
    method SetState(tag: nat, data: nat)
      requires Valid()
      modifies this`states
      ensures Valid() && Abstract() == SetGlobal(old(Abstract()), tag, data)
    {
      hide SizeTable.Valid, PathTable.Valid, ItemTable.Valid;
      var g := states[|states| - 1];
      var a := g.attrs;
      if tag == USAGE_PAGE {
        a := a.(page := data % W16);
      } else if tag == LOGICAL_MINIMUM {
        a := a.(logicalMin := data);
      } else if tag == LOGICAL_MAXIMUM {
        a := a.(logicalMax := data);
      } else if tag == PHYSICAL_MINIMUM {
        a := a.(physicalMin := data);
      } else if tag == PHYSICAL_MAXIMUM {
        a := a.(physicalMax := data);
      } else if tag == UNIT_EXPONENT {
        a := a.(unitExponent := data % W8);
      } else if tag == UNIT {
        a := a.(unitType := data);
      } else if tag == REPORT_SIZE {
        a := a.(bitSize := data % W8);
      } else if tag == REPORT_COUNT {
        g := g.(count := data % W8);
      }
      states := states[|states| - 1 := g.(attrs := a)];
    }

    /** USAGE. */
    method PushUsage(wide: bool, data: nat) returns (v: Verdict)
      requires Valid()
      modifies this`states, this`usages
      ensures Valid() && v != Exhausted
      ensures v == Going ==> AddUsage(limits, old(Abstract()), wide, data) == Outcome.Ok(Abstract())
      ensures v.Stopped? ==> v.error != Successful
      ensures v.Stopped? ==> AddUsage(limits, old(Abstract()), wide, data) == Err(v.error, items.found.total)
    {
      hide SizeTable.Valid, PathTable.Valid, ItemTable.Valid;
      if |usages| >= limits.usages {
        return Stopped(UsageListOverflow);
      }
      if wide {
        var g := states[|states| - 1];
        states := states[|states| - 1 := g.(attrs := g.attrs.(page := data / W16 % W16))];
      }
      usages := usages + [data % W16];
      return Going;
    }

    /** END COLLECTION. */
    method Leave() returns (v: Verdict)
      requires Valid()
      modifies paths, paths.pool, paths.pool.nodes, paths.pool.acquired
      ensures Valid() && Before() == old(Before()) && v != Exhausted
      ensures v == Going ==> CloseCollection(old(Abstract())) == Outcome.Ok(Abstract())
      ensures v.Stopped? ==> v.error != Successful
      ensures v.Stopped? ==> CloseCollection(old(Abstract())) == Err(v.error, items.found.total)
    {
      hide SizeTable.Valid, PathTable.Valid, ItemTable.Valid, Pool.Valid;
      var ok := paths.Leave();
      return if ok then Going else Stopped(UnexpectedEndCollection);
    }

    /** One item, up to the reset that follows a main item. */
    method Dispatch(tag: nat, wide: bool, data: nat) returns (v: Verdict)
      requires Valid()
      modifies this`states, this`usages, this`usageMin, this`usageMax, Repr()
      ensures v == Exhausted ==>
                Full() && var o := Act(limits, old(Abstract()), tag, wide, data); o.Ok? && !Room(old(Free()), o.s)
      ensures v != Exhausted ==> Valid() && Before() == old(Before())
      ensures v == Going ==> Act(limits, old(Abstract()), tag, wide, data) == Outcome.Ok(Abstract())
      ensures v.Stopped? ==> v.error != Successful
      ensures v.Stopped? ==> Act(limits, old(Abstract()), tag, wide, data) == Err(v.error, items.found.total)
    {
      hide SizeTable.Valid, PathTable.Valid, ItemTable.Valid, Pool.Valid;
      hide PushState, PopState, SelectReport, AddUsage, OpenCollection, CloseCollection, AddFields, SetGlobal;
      hide Full, Free, Room;
      v := Going;
      if tag == PUSH {
        v := Stack(true);
      } else if tag == POP {
        v := Stack(false);
      } else if tag == REPORT_ID {
        v := Select(data % W8);
      } else if tag == USAGE {
        v := PushUsage(wide, data);
      } else if tag == USAGE_MINIMUM {
        usageMin := data;
      } else if tag == USAGE_MAXIMUM {
        usageMax := data;
      } else if tag == COLLECTION {
        v := Enter(data);
      } else if tag == END_COLLECTION {
        v := Leave();
      } else if tag == INPUT {
        v := Fields(IN, data);
      } else if tag == OUTPUT {
        v := Fields(OUT, data);
      } else if tag == FEATURE {
        v := Fields(FEATURE_TYPE, data);
      } else {
        SetState(tag, data);
      }
    }

    /** Acquires the first nodes. */
    method Begin() returns (ok: bool)
      requires Idle()
      modifies this, Repr()
      ensures !ok ==> Full() && (|old(items.infos.content)| == items.infos.nodes.Length || !Room(old(Unused()), START))
      ensures ok ==> Valid() && Abstract() == START
      ensures ok ==> Before() == old((sizes.pool.content, paths.pool.content, items.infos.content, items.items.content))
    {
      hide SizeTable.Valid, PathTable.Valid, ItemTable.Valid, Pool.Valid, Pool.Full, Apart, Room, Beside, Full;
      states, usages, usageMin, usageMax := START.states, [], 0, 0;
      ok := BeginLists();
      if !ok {
        return;
      }
      ok := BeginItems();
    }

    method BeginItems() returns (ok: bool)
      requires Apart() && sizes.Valid() && paths.Valid() && items.infos.Valid() && items.items.Valid()
      modifies items, items.infos, items.infos.nodes, items.infos.acquired
      ensures !ok ==> Full() && |old(items.infos.content)| == items.infos.nodes.Length
      ensures ok ==> sizes.Valid() && paths.Valid() && items.Valid() && items.found == START.found
      ensures ok ==> items.infoBase == old(items.infos.content) && items.itemBase == old(items.items.content)
    {
      hide SizeTable.Valid, PathTable.Valid, ItemTable.Valid, Pool.Valid;
      ok := items.Open();
    }

    method BeginLists() returns (ok: bool)
      requires Idle()
      modifies sizes, sizes.pool, sizes.pool.nodes, sizes.pool.acquired
      modifies paths, paths.pool, paths.pool.nodes, paths.pool.acquired
      ensures items.infos.Valid() && items.items.Valid()
      ensures !ok ==> Full() && !Room(old(Unused()), START)
      ensures ok ==> sizes.Valid() && paths.Valid()
      ensures ok ==> sizes.reports == [NEW_REPORT] && sizes.curIdx == 0 && paths.paths == [] && paths.rootUsage == 0
      ensures ok ==> sizes.base == old(sizes.pool.content) && paths.base == old(paths.pool.content)
    {
      hide SizeTable.Valid, PathTable.Valid, Pool.Valid;
      ok := sizes.Open();
      if !ok {
        return;
      }
      ok := paths.Open();
    }

    /** The item at a position, and the position behind it. */
    method Turn(d: seq<byte>, pos: nat) returns (v: Verdict, next: nat)
      requires Valid() && pos < |d| && WellFormed(d[pos..])
      modifies this`states, this`usages, this`usageMin, this`usageMax, Repr()
      ensures v == Exhausted ==> Full()
      ensures v != Exhausted ==> Valid() && Before() == old(Before()) && Free() == old(Free())
      ensures pos < next <= |d| && WellFormed(d[next..])
      ensures v == Going ==> Interpret(limits, old(Abstract()), d[pos..]) == Interpret(limits, Abstract(), d[next..])
      ensures v.Stopped? ==> v.error != Successful
      ensures v.Stopped? ==> Interpret(limits, old(Abstract()), d[pos..]) == Err(v.error, items.found.total)
      ensures v == Going ==> Enough(limits, old(Free()), old(Abstract()), d[pos..]) == Enough(limits, Free(), Abstract(), d[next..])
      ensures v != Going ==> Enough(limits, old(Free()), old(Abstract()), d[pos..]) == v.Stopped?
    {
      hide SizeTable.Valid, PathTable.Valid, ItemTable.Valid, Apart, Before, Full;
      hide Number, Act, Interpret, WellFormed, EndOfMain, IsMain, DataLen, Beside, Room, Enough;
      Fitting();
      ItemTurn(limits, Free(), Abstract(), d, pos);
      var n := DataLen(d[pos]);
      next := pos + 1 + n;
      var data := ReadData(d[pos + 1..next]);
      var tag := d[pos] - d[pos] % 4;
      v := Dispatch(tag, n == 4, data);
      if v == Going && IsMain(tag) {
        Reset();
      }
    }

    /** Local items end with a main item. */
    method Reset()
      requires Valid()
      modifies this`usages, this`usageMin, this`usageMax
      ensures Valid() && Before() == old(Before()) && Free() == old(Free()) && Abstract() == EndOfMain(old(Abstract()))
    {
      hide SizeTable.Valid, PathTable.Valid, ItemTable.Valid;
      usages, usageMin, usageMax := [], 0, 0;
    }

    /** The items of a descriptor, one after the other. */
    method Run(d: seq<byte>) returns (v: Verdict)
      requires Valid() && WellFormed(d)
      modifies this`states, this`usages, this`usageMin, this`usageMax, Repr()
      ensures v == Exhausted ==> Full()
      ensures v == Exhausted <==> !Enough(limits, old(Free()), old(Abstract()), d)
      ensures v != Exhausted ==> Valid() && Before() == old(Before())
      ensures v == Going ==> Interpret(limits, old(Abstract()), d) == Outcome.Ok(Abstract())
      ensures v.Stopped? ==> v.error != Successful
      ensures v.Stopped? ==> Interpret(limits, old(Abstract()), d) == Err(v.error, items.found.total)
    {
      hide SizeTable.Valid, PathTable.Valid, ItemTable.Valid, Step, Wf, Apart, Free, Room;
      var pos := 0;
      assert d[0..] == d;
      while pos < |d|
        invariant pos <= |d| && WellFormed(d[pos..])
        invariant Valid() && Before() == old(Before())
        invariant Interpret(limits, old(Abstract()), d) == Interpret(limits, Abstract(), d[pos..])
        invariant Free() == old(Free())
        invariant Enough(limits, old(Free()), old(Abstract()), d) == Enough(limits, Free(), Abstract(), d[pos..])
      {
        var next;
        v, next := Turn(d, pos);
        if v != Going {
          return;
        }
        pos := next;
      }
      Fitting();
      assert d[pos..] == [];
      return Going;
    }

    /** Ends a parse: gives back the result unless it is a success, and every other node. */
    method Finish(error: Error) returns (r: Result)
      requires Valid()
      modifies Repr()
      ensures Idle() && sizes.pool.content == old(sizes.base) && paths.pool.content == old(paths.base)
      ensures items.found == old(items.found)
      ensures r == if error == Successful then Parsed(items.info) else Failed(error)
      ensures r.Failed? ==> items.infos.content == old(items.infoBase) && items.items.content == old(items.itemBase)
      ensures r.Parsed? ==> Holds(items.infos.content, items.items.content, r.info, items.chain, items.found,
                                  old(items.infoBase), old(items.itemBase))
    {
      hide SizeTable.Valid, PathTable.Valid, Wf, Owns, ItemList, InfoOf;
      if error != Successful {
        r := Failed(error);
        items.Free();
      } else {
        r := Parsed(items.info);
      }
      hide ItemTable.Valid, Pool.Valid;
      sizes.Close();
      paths.Close();
    }

    /** Gives back a result. */
    method Drop(info: int)
      requires Idle() && Holds(items.infos.content, items.items.content, info, items.chain, items.found, map[], map[])
      modifies items.infos, items.infos.acquired, items.items, items.items.acquired
      ensures Idle() && sizes.pool.content == old(sizes.pool.content) && paths.pool.content == old(paths.pool.content)
      ensures items.infos.content == map[] && items.items.content == map[]
    {
      hide Pool.Valid, Owns, ItemList, InfoOf;
      FreeReportInfo(items.infos, items.items, info, items.found, items.chain, map[], map[]);
    }

    /** Parses a descriptor. A result's items are listed from its node on, in `items.chain`. */
    method Process(d: seq<byte>) returns (r: Result)
      requires Idle() && WellFormed(d)
      modifies this, Repr()
      ensures r == OutOfNodes <==> !Suffices(limits, old(Unused()), d)
      ensures r == OutOfNodes ==> Full()
      ensures r != OutOfNodes ==> Idle()
      ensures r != OutOfNodes ==> sizes.pool.content == old(sizes.pool.content) && paths.pool.content == old(paths.pool.content)
      ensures r.Failed? ==> items.infos.content == old(items.infos.content) && items.items.content == old(items.items.content)
      ensures r.Failed? ==> Parse(limits, d).Err? && Parse(limits, d).error == r.error
      ensures r.Failed? ==> HidMeaning.FailsWith(limits, HidMeaning.Tokens(d), r.error)
      ensures r.Parsed? ==> HidMeaning.SaidItems(items.found.items) == HidMeaning.Wanted(HidMeaning.AllSaid(HidMeaning.Tokens(d)))
      ensures r.Parsed? ==> Parse(limits, d).Ok? && Parse(limits, d).s.found == items.found
      ensures r.Parsed? ==> Holds(items.infos.content, items.items.content, r.info, items.chain, items.found,
                                  old(items.infos.content), old(items.items.content))
    {
      hide SizeTable.Valid, PathTable.Valid, ItemTable.Valid, Interpret, Holds, Idle, Apart, Wf, Enough, Suffices;
      hide HidMeaning.FailsWith, HidMeaning.FirstFault, HidMeaning.SaidItems, HidMeaning.Wanted, HidMeaning.AllSaid, HidMeaning.Tokens;
      var ok := Begin();
      if !ok {
        NotBegun(limits, old(Unused()), d);
        return OutOfNodes;
      }
      Fitting();
      assert Free() == old(Unused());
      Begun(limits, Free(), d);
      var v := Run(d);
      if v == Exhausted {
        return OutOfNodes;
      }
      var total := items.Total();
      var error := if total == 0 then NoUnfilteredReportItems else if v.Stopped? then v.error else Successful;
      HidMeaning.ParseSays(limits, d);
      r := Finish(error);
    }
  }

  /** How a parse ends, as the program reports it. */
  function ErrorOf(o: Outcome): Error {
    if o.Ok? then Successful else o.error
  }

  /** Parses descriptors one after the other, as devices come and go, and gives back every result.
      Each parse ends as the interpreter says, up to the first descriptor for which the pools do not
      suffice, if there is one; without one all four pools are empty afterwards, as they were before. */
  method ParseEach(limits: Limits, sizeCount: nat, pathCount: nat, infoCount: nat, itemCount: nat, ds: seq<seq<byte>>)
    returns (errors: seq<Error>, p: DescriptorParser, full: bool)
    requires forall i :: 0 <= i < |ds| ==> WellFormed(ds[i])
    ensures |errors| <= |ds| && full == (|errors| < |ds|)
    ensures forall i :: 0 <= i < |errors| ==> Suffices(limits, Nodes(sizeCount, pathCount, infoCount, itemCount), ds[i])
    ensures full ==> p.Full() && !Suffices(limits, Nodes(sizeCount, pathCount, infoCount, itemCount), ds[|errors|])
    ensures !full ==> p.sizes.pool.content == map[] && p.paths.pool.content == map[]
    ensures !full ==> p.items.infos.content == map[] && p.items.items.content == map[]
    ensures forall i :: 0 <= i < |errors| ==> errors[i] == ErrorOf(Parse(limits, ds[i]))
  {
    p := new DescriptorParser(limits, sizeCount, pathCount, infoCount, itemCount);
    errors, full := [], false;
    ghost var n := Nodes(sizeCount, pathCount, infoCount, itemCount);
    hide Parse, Holds, DescriptorParser.Idle, DescriptorParser.Full, Suffices, HidMeaning.FailsWith;
    hide HidMeaning.SaidItems, HidMeaning.Wanted, HidMeaning.AllSaid, HidMeaning.Tokens;
    for k := 0 to |ds|
      invariant fresh(p) && fresh(p.Repr()) && p.Idle() && p.limits == limits && |errors| == k
      invariant p.sizes.pool.content == map[] && p.paths.pool.content == map[]
      invariant p.items.infos.content == map[] && p.items.items.content == map[]
      invariant p.Unused() == n
      invariant forall i :: 0 <= i < k ==> errors[i] == ErrorOf(Parse(limits, ds[i])) && Suffices(limits, n, ds[i])
    {
      var r := p.Process(ds[k]);
      if r == OutOfNodes {
        full := true;
        return;
      }
      if r.Parsed? {
        p.Drop(r.info);
      }
      errors := errors + [if r.Parsed? then Successful else r.error];
    }
  }
}
