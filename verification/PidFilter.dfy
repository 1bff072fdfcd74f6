// The filter as the library runs it: a PSI cache updated by the parsers, and a buffer rewritten in place.
module PidFilter {
  import opened Bytes
  import opened TransportStream
  import opened NullPackets
  import opened ProgramSelection

  // A peer's lists as they are stored: absent, or ending at the first zero.
  datatype Lists = Lists(active: bool, requestedPrograms: Option<seq<nat>>, blockedPrograms: Option<seq<nat>>,
                         requestedPids: Option<seq<nat>>, blockedPids: Option<seq<nat>>)

  predicate Terminated(list: Option<seq<nat>>) { list.Some? ==> 0 in list.value }

  predicate ListsOk(l: Lists) {
    Terminated(l.requestedPrograms) && Terminated(l.blockedPrograms) && Terminated(l.requestedPids)
    && Terminated(l.blockedPids)
  }

  function Items(list: seq<nat>): seq<nat> {
    if list == [] || list[0] == 0 then [] else [list[0]] + Items(list[1..])
  }

  function ItemsOf(list: Option<seq<nat>>): Option<seq<nat>> {
    if list.Some? then Some(Items(list.value)) else None
  }

  function Meaning(l: Lists): Selection {
    Selection(l.active, ItemsOf(l.requestedPrograms), ItemsOf(l.blockedPrograms), ItemsOf(l.requestedPids),
              ItemsOf(l.blockedPids))
  }

  lemma ItemsStep(list: seq<nat>, i: nat)
    requires i < |list|
    ensures list[i] == 0 ==> Items(list[i..]) == []
    ensures list[i] != 0 ==> Items(list[i..]) == [list[i]] + Items(list[i + 1..])
  {
    assert list[i..][1..] == list[i + 1..];
  }

  method Listed(list: Option<seq<nat>>, x: nat) returns (found: bool)
    requires Terminated(list)
    ensures found <==> list.Some? && x in Items(list.value)
  {
    if list.None? {
      return false;
    }
    var a, i := list.value, 0;
    assert a[0..] == a;
    ItemsStep(a, i);
    while a[i] != 0
      invariant 0 <= i < |a| && 0 in a[i..]
      invariant x in Items(a[i..]) <==> x in Items(a)
      decreases |a| - i
    {
      ItemsStep(a, i);
      if a[i] == x {
        return true;
      }
      assert a[i..][1..] == a[i + 1..] && a[i..] == [a[i]] + a[i + 1..];
      i := i + 1;
    }
    ItemsStep(a, i);
    return false;
  }

  method PidBelongsToProgram(programs: seq<Program>, pid: nat, number: nat) returns (belongs: bool)
    ensures belongs == Belongs(programs, pid, number)
  {
    assert programs[0..] == programs;
    for i := 0 to |programs|
      invariant Belongs(programs, pid, number) == Belongs(programs[i..], pid, number)
    {
      assert programs[i..][1..] == programs[i + 1..];
      if programs[i].number == number {
        if programs[i].pcrPid == pid && programs[i].pcrPid != NO_PID {
          return true;
        }
        for j := 0 to |programs[i].streams|
          invariant pid !in programs[i].streams[..j]
        {
          if programs[i].streams[j] == pid {
            return true;
          }
        }
        return false;
      }
    }
    return false;
  }

  method PidBelongsToAny(programs: seq<Program>, pid: nat, list: seq<nat>) returns (belongs: bool)
    requires 0 in list
    ensures belongs == BelongsToAny(programs, pid, Items(list))
  {
    hide Belongs;
    var i := 0;
    assert list[0..] == list;
    ItemsStep(list, i);
    while list[i] != 0
      invariant 0 <= i < |list| && 0 in list[i..]
      invariant BelongsToAny(programs, pid, Items(list[i..])) <==> BelongsToAny(programs, pid, Items(list))
      decreases |list| - i
    {
      ItemsStep(list, i);
      var here := PidBelongsToProgram(programs, pid, list[i]);
      if here {
        return true;
      }
      assert list[i..] == [list[i]] + list[i + 1..];
      i := i + 1;
    }
    ItemsStep(list, i);
    return false;
  }

  lemma FilterPacketsStep(c: Cache, ps: seq<TsPacket>, s: Selection)
    requires ps != []
    ensures var (c', p) := FilterPacket(c, ps[0], s);
      && FilterPackets(c, ps, s).0 == FilterPackets(c', ps[1..], s).0
      && FilterPackets(c, ps, s).1 == [p] + FilterPackets(c', ps[1..], s).1
  {
    hide FilterPacket;
  }

  lemma FilterNothing(c: Cache, ps: seq<TsPacket>, s: Selection)
    requires ps == []
    ensures FilterPackets(c, ps, s) == (c, [])
  {
  }

  lemma FlattenNone()
    ensures Flatten([]) == []
  {
  }

  lemma FlattenSnoc(ps: seq<TsPacket>, p: TsPacket)
    ensures Flatten(ps + [p]) == Flatten(ps) + p
  {
    FlattenConcat(ps, [p]);
    assert Flatten([p]) == p;
  }

  class PsiCache {
    var patVersion: Option<nat>
    var programs: seq<Program>
    var catVersion: Option<nat>
    var emmPids: seq<nat>

    ghost function View(): Cache
      reads this
    {
      Cache(patVersion, programs, catVersion, emmPids)
    }

    constructor ()
      ensures View() == Cache(None, [], None, [])
    {
      patVersion, programs, catVersion, emmPids := None, [], None, [];
    }

    // Fills the program map anew from the table's section.
    method CollectPrograms(s: seq<Byte>)
      requires |s| >= 12
      modifies `programs
      ensures programs == PatPrograms(s, 0, MAX_PROGRAMS)
    {
      hide Num, Int13;
      programs := [];
      ghost var all := PatPrograms(s, 0, MAX_PROGRAMS);
      var i := 0;
      while i < |s| - 12 && |programs| < MAX_PROGRAMS
        invariant i >= 0 && |programs| <= MAX_PROGRAMS
        invariant programs + PatPrograms(s, i, MAX_PROGRAMS - |programs|) == all
        decreases |s| - i
      {
        var number := Num(s[8 + i]) * 256 + Num(s[9 + i]);
        if number != 0 {
          var program := Program(number, Int13(s[10 + i], s[11 + i]), NO_PID, [], None);
          ghost var rest := PatPrograms(s, i + 4, MAX_PROGRAMS - |programs| - 1);
          assert (programs + [program]) + rest == programs + ([program] + rest);
          programs := programs + [program];
        }
        i := i + 4;
      }
    }

    method ParsePatPacket(p: TsPacket)
      modifies this
      ensures View() == ParsePat(old(View()), p)
    {
      hide Num, Section, PatPrograms;
      var section := Section(p, 0, 9);
      if section.None? {
        return;
      }
      if patVersion == Some(Version(section.value)) {
        return;
      }
      CollectPrograms(section.value);
      patVersion := Some(Version(section.value));
    }

    // Fills the list of entitlement PIDs anew from the table's section.
    method CollectEmmPids(s: seq<Byte>)
      requires |s| >= 12
      modifies `emmPids
      ensures emmPids == EmmPids(s, 0, MAX_EMM_PIDS)
    {
      hide Num, Int13;
      emmPids := [];
      ghost var all := EmmPids(s, 0, MAX_EMM_PIDS);
      var i := 0;
      while i < |s| - 12 && |emmPids| < MAX_EMM_PIDS
        invariant i >= 0 && |emmPids| <= MAX_EMM_PIDS
        invariant emmPids + EmmPids(s, i, MAX_EMM_PIDS - |emmPids|) == all
        decreases |s| - i
      {
        var len := Num(s[9 + i]);
        if i + 2 + len > |s| - 12 {
          break;
        }
        if Num(s[8 + i]) == 9 && len >= 4 {
          var pid := Int13(s[12 + i], s[13 + i]);
          ghost var rest := EmmPids(s, i + 2 + len, MAX_EMM_PIDS - |emmPids| - 1);
          assert (emmPids + [pid]) + rest == emmPids + ([pid] + rest);
          emmPids := emmPids + [pid];
        }
        i := i + 2 + len;
      }
    }

    method ParseCatPacket(p: TsPacket)
      modifies this
      ensures View() == ParseCat(old(View()), p)
    {
      hide Num, Section, EmmPids;
      var section := Section(p, 1, 9);
      if section.None? {
        return;
      }
      if catVersion == Some(Version(section.value)) {
        return;
      }
      CollectEmmPids(section.value);
      catVersion := Some(Version(section.value));
    }

    // The index of the first program mapped on this PID, if any.
    method FindProgramByPmtPid(pid: nat) returns (k: nat)
      ensures k == FindMap(programs, pid, 0)
    {
      k := 0;
      while k < |programs| && programs[k].pmtPid != pid
        invariant k <= |programs| && FindMap(programs, pid, k) == FindMap(programs, pid, 0)
      {
        k := k + 1;
      }
    }

    method ParsePmtPacket(p: TsPacket, pid: nat)
      modifies this
      ensures View() == ParsePmt(old(View()), p, pid)
    {
      hide Num, Num12, Int13, Section, FindMap, StreamPids;
      var section := Section(p, 2, 13);
      if section.None? {
        return;
      }
      var s := section.value;
      var k := FindProgramByPmtPid(pid);
      if k == |programs| {
        return;
      }
      var program := programs[k];
      if program.number != Num(s[3]) * 256 + Num(s[4]) {
        return;
      }
      if program.version == Some(Version(s)) {
        return;
      }
      var streams := CollectStreams(s, 12 + Num12(s[10], s[11]), |s| - 7);
      programs := programs[k := program.(pcrPid := Int13(s[8], s[9]), streams := streams, version := Some(Version(s)))];
    }

    static method CollectStreams(s: seq<Byte>, start: nat, end: nat) returns (streams: seq<nat>)
      requires end <= |s|
      ensures streams == StreamPids(s, start, end, MAX_STREAMS)
    {
      hide Num12, Int13;
      var pos := start;
      ghost var all := StreamPids(s, pos, end, MAX_STREAMS);
      streams := [];
      while pos < end && |streams| < MAX_STREAMS
        invariant |streams| <= MAX_STREAMS
        invariant streams + StreamPids(s, pos, end, MAX_STREAMS - |streams|) == all
        decreases end - pos
      {
        if pos + 5 > end {
          break;
        }
        var stream := Int13(s[pos + 1], s[pos + 2]);
        ghost var rest := StreamPids(s, pos + 5 + Num12(s[pos + 3], s[pos + 4]), end, MAX_STREAMS - |streams| - 1);
        assert (streams + [stream]) + rest == streams + ([stream] + rest);
        streams := streams + [stream];
        pos := pos + 5 + Num12(s[pos + 3], s[pos + 4]);
      }
      assert streams == all;
    }

    method ShouldIncludePid(pid: nat, l: Lists) returns (keep: bool)
      requires ListsOk(l)
      ensures keep == Included(View(), pid, Meaning(l))
    {
      hide FindMap, Belongs, BelongsToAny, Items;
      if !l.active {
        return true;
      }
      if pid <= 0x1F {
        return true;
      }
      var k := FindProgramByPmtPid(pid);
      if k < |programs| {
        return true;
      }
      if pid in emmPids {
        return true;
      }
      var requested := Listed(l.requestedPids, pid);
      if requested {
        return true;
      }
      var blocked := Listed(l.blockedPids, pid);
      if blocked {
        return false;
      }
      if l.requestedPrograms.Some? {
        keep := PidBelongsToAny(programs, pid, l.requestedPrograms.value);
        return;
      }
      if l.blockedPrograms.Some? {
        var inBlocked := PidBelongsToAny(programs, pid, l.blockedPrograms.value);
        if inBlocked {
          return false;
        }
      }
      if l.requestedPids.Some? {
        return false;
      }
      return true;
    }

    // Parses a packet with a sync byte if it belongs to a table, then applies the rule.
    method FilterOne(p: TsPacket, l: Lists) returns (drop: bool)
      requires ListsOk(l)
      modifies this
      ensures (View(), if drop then NullPacket(188) else p) == FilterPacket(old(View()), p, Meaning(l))
      ensures drop ==> HasSync(p)
    {
      hide Int13, Section, Included, ParsePat, ParseCat, ParsePmt, FindMap, NullPacket;
      if !HasSync(p) {
        return false;
      }
      var pid := Pid(p);
      if pid == 0 {
        ParsePatPacket(p);
      } else if pid == 1 {
        ParseCatPacket(p);
      } else {
        var k := FindProgramByPmtPid(pid);
        if k < |programs| {
          ParsePmtPacket(p, pid);
        }
      }
      var keep := ShouldIncludePid(pid, l);
      return !keep;
    }

    // Turns the packet at this place into the standard null packet; its sync byte is already there.
    static method WriteNull(data: array<Byte>, at: nat)
      requires at + 188 <= data.Length && data[at] == 0x47
      modifies data
      ensures data[at..at + 188] == NullPacket(188)
      ensures forall k :: 0 <= k < at || at + 188 <= k < data.Length ==> data[k] == old(data[k])
    {
      data[at + 1], data[at + 2], data[at + 3] := 0x1F, 0xFF, 0x10;
      forall k | 4 <= k < 188 {
        data[at + k] := 0xFF;
      }
      ghost var p := NullPacket(188);
      forall k | 0 <= k < 188
        ensures data[at + k] == p[k]
      {
      }
      assert data[at..at + 188] == p;
    }

    method FilterAt(data: array<Byte>, at: nat, l: Lists)
      requires ListsOk(l) && at + 188 <= data.Length
      modifies this, data
      ensures (View(), data[at..at + 188]) == FilterPacket(old(View()), old(data[at..at + 188]), Meaning(l))
      ensures forall k :: 0 <= k < at || at + 188 <= k < data.Length ==> data[k] == old(data[k])
    {
      hide FilterPacket, NullPacket, Meaning;
      var packet: TsPacket := data[at..at + 188];
      var drop := FilterOne(packet, l);
      if drop {
        assert packet[0] == 0x47;
        WriteNull(data, at);
      }
    }

    method FilterTransportStreamPids(data: array<Byte>, l: Lists)
      requires ListsOk(l)
      modifies this, data
      ensures (View(), data[..]) == Filter(old(View()), old(data[..]), Meaning(l))
    {
      hide FilterPacket, FilterPackets, NullPacket, Packets, Flatten, Items;
      if data.Length == 0 || data.Length % 188 != 0 || data[0] != 0x47 {
        return;
      }
      if !l.active {
        return;
      }
      var n := data.Length / 188;
      ghost var ps, sel := Packets(data[..]), Meaning(l);
      ghost var whole := FilterPackets(View(), ps, sel);
      ghost var done: seq<TsPacket> := [];
      assert ps[0..] == ps && data[..] == data[0..];
      FlattenNone();
      for i := 0 to n
        invariant forall k :: 188 * i <= k < data.Length ==> data[k] == old(data[k])
        invariant data[..188 * i] == Flatten(done)
        invariant FilterPackets(View(), ps[i..], sel).0 == whole.0
        invariant done + FilterPackets(View(), ps[i..], sel).1 == whole.1
      {
        var at := 188 * i;
        PacketsAt(old(data[..]), i);
        assert data[at..at + 188] == old(data[..])[at..at + 188];
        assert data[at..at + 188] == ps[i] && ps[i..][1..] == ps[i + 1..];
        FilterPacketsStep(View(), ps[i..], sel);
        FilterAt(data, at, l);
        ghost var p: TsPacket := data[at..at + 188];
        FlattenSnoc(done, p);
        assert (done + [p]) + FilterPackets(View(), ps[i + 1..], sel).1 ==
          done + ([p] + FilterPackets(View(), ps[i + 1..], sel).1);
        done := done + [p];
      }
      FilterNothing(View(), ps[n..], sel);
      assert done == whole.1 && data[..188 * n] == data[..];
    }
  }
}
