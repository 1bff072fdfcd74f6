// The tables written down independently (ISO/IEC 13818-1, sections 2.4.4.3 to 2.4.4.8) and read back by the filter.
module PsiSections {
  import opened Bytes
  import opened TransportStream
  import opened NullPackets
  import opened ProgramSelection

  // A number of 13 or 12 bits behind its reserved bits.
  function Bits13(n: nat): (s: seq<Byte>)
    requires n < 0x2000
    ensures |s| == 2
  {
    [ByteOf(0xE0 + n / 256), ByteOf(n % 256)]
  }

  function Bits12(n: nat): (s: seq<Byte>)
    requires n < 0x1000
    ensures |s| == 2
  {
    [ByteOf(0xF0 + n / 256), ByteOf(n % 256)]
  }

  // What every section begins with, apart from its table and length; the check sum is not looked at.
  datatype Head = Head(extension: U16, version: nat, current: bool, crc: seq<Byte>)

  predicate HeadOk(h: Head) { h.version < 32 && |h.crc| == 4 }

  function SectionOf(table: nat, h: Head, body: seq<Byte>): (s: seq<Byte>)
    requires table < 256 && HeadOk(h) && |body| <= 171
    ensures |s| == |body| + 12
  {
    [ByteOf(table), ByteOf(0xB0), ByteOf(|body| + 9)] + Be16(h.extension)
    + [ByteOf(0xC0 + 2 * h.version + if h.current then 1 else 0), 0, 0] + body + h.crc
  }

  // What a packet carries before the section: perhaps an adaptation field, and the bytes the pointer skips.
  datatype Lead = Lead(continuity: nat, adaptation: Option<seq<Byte>>, skipped: seq<Byte>)

  function Field(l: Lead): seq<Byte>
    requires l.adaptation.Some? ==> |l.adaptation.value| < 256
  {
    if l.adaptation.Some? then [ByteOf(|l.adaptation.value|)] + l.adaptation.value else []
  }

  // Where the section begins.
  function Start(l: Lead): nat { 5 + (if l.adaptation.Some? then 1 + |l.adaptation.value| else 0) + |l.skipped| }

  predicate Fits(l: Lead, section: seq<Byte>) { l.continuity < 16 && Start(l) + |section| <= 188 }

  // A packet of this PID that starts a section.
  function PacketOf(pid: nat, l: Lead, section: seq<Byte>): TsPacket
    requires pid < 0x2000 && Fits(l, section)
  {
    [SYNC_BYTE, ByteOf(0x40 + pid / 256), ByteOf(pid % 256),
     ByteOf((if l.adaptation.Some? then 0x30 else 0x10) + l.continuity)]
    + Field(l) + [ByteOf(|l.skipped|)] + l.skipped + section + seq(188 - Start(l) - |section|, i => 0xFF)
  }

  lemma NumOf(n: nat)
    requires n < 256
    ensures Num(ByteOf(n)) == n
  {
    ByteOfInt(n);
  }

  lemma Bits13Back(n: nat)
    requires n < 0x2000
    ensures Int13(Bits13(n)[0], Bits13(n)[1]) == n
  {
    hide ByteOf;
    ByteOfInt(0xE0 + n / 256);
    ByteOfInt(n % 256);
  }

  lemma Bits12Back(n: nat)
    requires n < 0x1000
    ensures Num12(Bits12(n)[0], Bits12(n)[1]) == n
  {
    hide ByteOf, Num;
    NumOf(0xF0 + n / 256);
    NumOf(n % 256);
  }

  lemma PacketBytes(pid: nat, l: Lead, section: seq<Byte>)
    requires pid < 0x2000 && Fits(l, section)
    ensures var p := PacketOf(pid, l, section);
      && p[0] == SYNC_BYTE && p[1] == ByteOf(0x40 + pid / 256) && p[2] == ByteOf(pid % 256)
      && p[3] == ByteOf((if l.adaptation.Some? then 0x30 else 0x10) + l.continuity)
      && (l.adaptation.Some? ==> p[4] == ByteOf(|l.adaptation.value|))
      && p[Start(l) - |l.skipped| - 1] == ByteOf(|l.skipped|)
      && p[Start(l)..Start(l) + |section|] == section
  {
    hide ByteOf;
  }

  lemma PidBytes(pid: nat)
    requires pid < 0x2000
    ensures Int13(ByteOf(0x40 + pid / 256), ByteOf(pid % 256)) == pid
  {
    hide ByteOf;
    ByteOfInt(0x40 + pid / 256);
    ByteOfInt(pid % 256);
  }

  lemma PidBack(pid: nat, l: Lead, section: seq<Byte>)
    requires pid < 0x2000 && Fits(l, section)
    ensures var p := PacketOf(pid, l, section);
      && Pid(p) == pid && HasSync(p) && p[Start(l)..Start(l) + |section|] == section
      && Num(p[1]) == 0x40 + pid / 256 && Num(p[3]) == (if l.adaptation.Some? then 0x30 else 0x10) + l.continuity
  {
    hide ByteOf, Num, PacketOf, Int13;
    PacketBytes(pid, l, section);
    PidBytes(pid);
    NumOf(0x40 + pid / 256);
    NumOf((if l.adaptation.Some? then 0x30 else 0x10) + l.continuity);
  }

  lemma StartBack(pid: nat, l: Lead, section: seq<Byte>)
    requires pid < 0x2000 && Fits(l, section) && |section| >= 3
    ensures SectionStart(PacketOf(pid, l, section)) == Some(Start(l))
  {
    hide ByteOf, Num, PacketOf;
    PacketBytes(pid, l, section);
    PidBack(pid, l, section);
    NumOf(|l.skipped|);
    if l.adaptation.Some? { NumOf(|l.adaptation.value|); }
  }

  // The fields of a section.
  lemma HeadBack(table: nat, h: Head, body: seq<Byte>)
    requires table < 256 && HeadOk(h) && |body| <= 171
    ensures var s := SectionOf(table, h, body);
      && Num(s[0]) == table && Num12(s[1], s[2]) == |body| + 9 && Num(s[3]) * 256 + Num(s[4]) == h.extension
      && Version(s) == h.version && Num(s[5]) % 2 == (if h.current then 1 else 0)
      && s[8..|s| - 4] == body
  {
    hide ByteOf, Num;
    NumOf(table);
    NumOf(0xB0);
    NumOf(|body| + 9);
    NumOf(h.extension / 256);
    NumOf(h.extension % 256);
    NumOf(0xC0 + 2 * h.version + if h.current then 1 else 0);
  }

  // A section is found in its packet if it is in force and of the table looked for.
  lemma SectionBack(pid: nat, l: Lead, table: nat, h: Head, body: seq<Byte>, least: nat)
    requires pid < 0x2000 && table < 256 && HeadOk(h) && |body| <= 171 && 9 <= least <= |body| + 9
    requires Fits(l, SectionOf(table, h, body))
    ensures var s := SectionOf(table, h, body);
      Section(PacketOf(pid, l, s), table, least) == if h.current then Some(s) else None
  {
    var s := SectionOf(table, h, body);
    var p := PacketOf(pid, l, s);
    PidBack(pid, l, s);
    StartBack(pid, l, s);
    HeadBack(table, h, body);
    hide ByteOf, Num, Num12, PacketOf, SectionOf, SectionStart, Start;
    var at := Start(l);
    assert p[at] == p[at..at + |s|][0] && p[at + 1] == p[at..at + |s|][1] && p[at + 2] == p[at..at + |s|][2];
  }

  // A packet that does not start a section tells the filter nothing.
  lemma NoSectionStarts(c: Cache, p: TsPacket)
    requires Num(p[1]) / 64 % 2 == 0
    ensures ParsePsi(c, p) == c
  {
    hide Num, Num12, Pid, FindMap;
  }

  // ---- the program association table ----

  datatype Listed = Listed(number: U16, pid: nat)

  predicate ListedOk(ls: seq<Listed>) { forall i :: 0 <= i < |ls| ==> ls[i].pid < 0x2000 }

  function PatBody(ls: seq<Listed>): (b: seq<Byte>)
    requires ListedOk(ls)
    ensures |b| == 4 * |ls|
  {
    if ls == [] then [] else Be16(ls[0].number) + Bits13(ls[0].pid) + PatBody(ls[1..])
  }

  // Number zero names the network table.
  function ProgramsOf(ls: seq<Listed>): seq<Program> {
    if ls == [] then []
    else (if ls[0].number == 0 then [] else [Program(ls[0].number, ls[0].pid, NO_PID, [], None)]) + ProgramsOf(ls[1..])
  }

  lemma TailAfter(s: seq<Byte>, from: nat, to: nat, entry: seq<Byte>, rest: seq<Byte>)
    requires from <= to <= |s| && s[from..to] == entry + rest
    ensures from + |entry| <= to && s[from..from + |entry|] == entry && s[from + |entry|..to] == rest
    ensures forall k :: 0 <= k < |entry| ==> s[from + k] == entry[k]
  {
    assert s[from..to][..|entry|] == entry && s[from..to][|entry|..] == rest;
    forall k | 0 <= k < |entry|
      ensures s[from + k] == entry[k]
    {
      assert s[from..to][k] == entry[k];
    }
  }

  lemma ListedBack(s: seq<Byte>, i: nat, l: Listed, rest: seq<Byte>)
    requires |s| >= 12 && i <= |s| - 12 && l.pid < 0x2000
    requires s[8 + i..|s| - 4] == Be16(l.number) + Bits13(l.pid) + rest
    ensures i + 4 <= |s| - 12 && Num(s[8 + i]) * 256 + Num(s[9 + i]) == l.number && Int13(s[10 + i], s[11 + i]) == l.pid
    ensures s[12 + i..|s| - 4] == rest
  {
    hide Num, ByteOf, Bits13, Int13;
    TailAfter(s, 8 + i, |s| - 4, Be16(l.number) + Bits13(l.pid), rest);
    var entry := Be16(l.number) + Bits13(l.pid);
    assert s[8 + i + 0] == entry[0] && s[8 + i + 1] == entry[1] && s[8 + i + 2] == entry[2] && s[8 + i + 3] == entry[3];
    NumOf(l.number / 256);
    NumOf(l.number % 256);
    Bits13Back(l.pid);
  }

  lemma PatStep(s: seq<Byte>, i: nat, cap: nat)
    requires |s| >= 12 && i < |s| - 12 && cap > 0
    ensures var number := Num(s[8 + i]) * 256 + Num(s[9 + i]);
      PatPrograms(s, i, cap) ==
        if number == 0 then PatPrograms(s, i + 4, cap)
        else [Program(number, Int13(s[10 + i], s[11 + i]), NO_PID, [], None)] + PatPrograms(s, i + 4, cap - 1)
  {
    hide Num, Int13;
  }

  lemma PatEnds(s: seq<Byte>, i: nat, cap: nat)
    requires |s| >= 12 && i >= |s| - 12
    ensures PatPrograms(s, i, cap) == []
  {
    hide Num, Int13;
  }

  lemma ListedCons(ls: seq<Listed>)
    requires ls != [] && ListedOk(ls)
    ensures ls[0].pid < 0x2000 && ListedOk(ls[1..])
    ensures PatBody(ls) == Be16(ls[0].number) + Bits13(ls[0].pid) + PatBody(ls[1..])
    ensures ProgramsOf(ls) ==
      (if ls[0].number == 0 then [] else [Program(ls[0].number, ls[0].pid, NO_PID, [], None)]) + ProgramsOf(ls[1..])
  {
    hide Be16, Bits13;
  }

  lemma NoneListed()
    ensures ProgramsOf([]) == []
  {
  }

  lemma {:induction false} ProgramsBack(s: seq<Byte>, i: nat, ls: seq<Listed>, cap: nat)
    requires |s| >= 12 && ListedOk(ls) && i + 4 * |ls| == |s| - 12 && s[8 + i..|s| - 4] == PatBody(ls) && |ls| <= cap
    ensures PatPrograms(s, i, cap) == ProgramsOf(ls)
    decreases |ls|
  {
    hide Num, Be16, Bits13, Int13, PatPrograms, PatBody, ProgramsOf, ListedOk;
    if ls == [] {
      PatEnds(s, i, cap);
      NoneListed();
    } else {
      ListedCons(ls);
      ListedBack(s, i, ls[0], PatBody(ls[1..]));
      PatStep(s, i, cap);
      ProgramsBack(s, i + 4, ls[1..], if ls[0].number == 0 then cap else cap - 1);
    }
  }

  // Whatever programs a section in one packet lists, reading it with a new version gives exactly these, in order.
  lemma PatBack(c: Cache, pid: nat, l: Lead, h: Head, ls: seq<Listed>)
    requires pid < 0x2000 && HeadOk(h) && ListedOk(ls) && |ls| <= 42 && Fits(l, SectionOf(0, h, PatBody(ls)))
    ensures ParsePat(c, PacketOf(pid, l, SectionOf(0, h, PatBody(ls)))) ==
      if h.current && c.patVersion != Some(h.version)
      then c.(patVersion := Some(h.version), programs := ProgramsOf(ls)) else c
  {
    hide ByteOf, Num, Num12, PacketOf, SectionOf, SectionStart, Section, PatBody, Version, PatPrograms;
    SectionBack(pid, l, 0, h, PatBody(ls), 9);
    HeadBack(0, h, PatBody(ls));
    ProgramsBack(SectionOf(0, h, PatBody(ls)), 0, ls, MAX_PROGRAMS);
  }

  // ---- the conditional access table ----

  // Descriptors: those for conditional access, with the PID of their entitlement messages, and others.
  datatype Descriptor = Access(system: U16, pid: nat, private: seq<Byte>) | Other(tag: nat, data: seq<Byte>)

  ghost predicate DescriptorOk(d: Descriptor) {
    match d
    case Access(_, pid, private) => pid < 0x2000 && |private| < 252
    case Other(tag, data) => tag < 256 && tag != 9 && |data| < 256
  }

  function DescriptorBytes(d: Descriptor): (b: seq<Byte>)
    requires DescriptorOk(d)
    ensures |b| == 2 + if d.Access? then 4 + |d.private| else |d.data|
  {
    match d
    case Access(system, pid, private) => [9, ByteOf(4 + |private|)] + Be16(system) + Bits13(pid) + private
    case Other(tag, data) => [ByteOf(tag), ByteOf(|data|)] + data
  }

  ghost predicate DescriptorsOk(ds: seq<Descriptor>) { forall i :: 0 <= i < |ds| ==> DescriptorOk(ds[i]) }

  ghost function CatBody(ds: seq<Descriptor>): seq<Byte>
    requires DescriptorsOk(ds)
  {
    if ds == [] then [] else DescriptorBytes(ds[0]) + CatBody(ds[1..])
  }

  function AccessPids(ds: seq<Descriptor>): seq<nat> {
    if ds == [] then [] else (if ds[0].Access? then [ds[0].pid] else []) + AccessPids(ds[1..])
  }

  lemma DescriptorBack(s: seq<Byte>, i: nat, d: Descriptor, rest: seq<Byte>)
    requires |s| >= 12 && i <= |s| - 12 && DescriptorOk(d) && s[8 + i..|s| - 4] == DescriptorBytes(d) + rest
    ensures i + |DescriptorBytes(d)| <= |s| - 12 && s[8 + i + |DescriptorBytes(d)|..|s| - 4] == rest
    ensures Num(s[9 + i]) == |DescriptorBytes(d)| - 2
    ensures (Num(s[8 + i]) == 9) == d.Access?
    ensures d.Access? ==> Num(s[9 + i]) >= 4 && i + 6 <= |s| - 12 && Int13(s[12 + i], s[13 + i]) == d.pid
  {
    hide Num, ByteOf, Bits13, Int13;
    var bytes := DescriptorBytes(d);
    TailAfter(s, 8 + i, |s| - 4, bytes, rest);
    assert s[8 + i + 0] == bytes[0] && s[8 + i + 1] == bytes[1];
    NumOf(|bytes| - 2);
    NineIsNine();
    match d
    case Access(system, pid, private) =>
      assert s[8 + i + 4] == bytes[4] && s[8 + i + 5] == bytes[5];
      Bits13Back(pid);
    case Other(tag, data) => NumOf(tag);
  }

  lemma NineIsNine()
    ensures Num(9) == 9
  {
  }

  lemma {:induction false} AccessBack(s: seq<Byte>, i: nat, ds: seq<Descriptor>, cap: nat)
    requires |s| >= 12 && i <= |s| - 12 && DescriptorsOk(ds) && s[8 + i..|s| - 4] == CatBody(ds)
    requires |AccessPids(ds)| <= cap
    ensures EmmPids(s, i, cap) == AccessPids(ds)
    decreases |ds|
  {
    hide Num, DescriptorBytes, Int13, DescriptorOk;
    if ds != [] && cap > 0 {
      assert DescriptorOk(ds[0]) && DescriptorsOk(ds[1..]);
      DescriptorBack(s, i, ds[0], CatBody(ds[1..]));
      AccessBack(s, i + |DescriptorBytes(ds[0])|, ds[1..], if ds[0].Access? then cap - 1 else cap);
    } else if ds != [] {
      NoAccess(ds);
    }
  }

  lemma NoAccess(ds: seq<Descriptor>)
    requires |AccessPids(ds)| == 0
    ensures AccessPids(ds) == []
  {
  }

  // Reading such a section with a new version gives the PIDs of the first sixteen conditional access descriptors.
  lemma CatBack(c: Cache, pid: nat, l: Lead, h: Head, ds: seq<Descriptor>)
    requires pid < 0x2000 && HeadOk(h) && DescriptorsOk(ds) && |CatBody(ds)| <= 171
    requires Fits(l, SectionOf(1, h, CatBody(ds)))
    ensures var pids := AccessPids(ds);
      ParseCat(c, PacketOf(pid, l, SectionOf(1, h, CatBody(ds)))) ==
        if h.current && c.catVersion != Some(h.version)
        then c.(catVersion := Some(h.version), emmPids := if |pids| <= MAX_EMM_PIDS then pids else pids[..MAX_EMM_PIDS])
        else c
  {
    hide ByteOf, Num, Num12, PacketOf, SectionOf, SectionStart, Section, CatBody, Version, EmmPids, AccessPids;
    var s, pids := SectionOf(1, h, CatBody(ds)), AccessPids(ds);
    SectionBack(pid, l, 1, h, CatBody(ds), 9);
    HeadBack(1, h, CatBody(ds));
    AccessBack(s, 0, ds, |pids| + MAX_EMM_PIDS);
    EmmLimitKeepsFirst(s, 0, MAX_EMM_PIDS, |pids| + MAX_EMM_PIDS);
  }

  // ---- a program map ----

  datatype Elementary = Elementary(kind: nat, pid: nat, info: seq<Byte>)

  ghost predicate ElementaryOk(e: Elementary) { e.kind < 256 && e.pid < 0x2000 && |e.info| < 0x1000 }

  function ElementaryBytes(e: Elementary): (b: seq<Byte>)
    requires ElementaryOk(e)
    ensures |b| == 5 + |e.info|
  {
    [ByteOf(e.kind)] + Bits13(e.pid) + Bits12(|e.info|) + e.info
  }

  ghost predicate ElementariesOk(es: seq<Elementary>) { forall i :: 0 <= i < |es| ==> ElementaryOk(es[i]) }

  ghost function Loop(es: seq<Elementary>): seq<Byte>
    requires ElementariesOk(es)
  {
    if es == [] then [] else ElementaryBytes(es[0]) + Loop(es[1..])
  }

  ghost function PmtBody(pcr: nat, info: seq<Byte>, es: seq<Elementary>): (b: seq<Byte>)
    requires pcr < 0x2000 && |info| < 0x1000 && ElementariesOk(es)
    ensures |b| >= 4
  {
    Bits13(pcr) + Bits12(|info|) + info + Loop(es)
  }

  function StreamsOf(es: seq<Elementary>): (s: seq<Stream>)
    ensures |s| == |es|
  {
    if es == [] then [] else [Stream(es[0].pid, |es[0].info|)] + StreamsOf(es[1..])
  }

  lemma ElementaryBack(s: seq<Byte>, pos: nat, end: nat, e: Elementary, rest: seq<Byte>)
    requires pos <= end <= |s| && ElementaryOk(e) && s[pos..end] == ElementaryBytes(e) + rest
    ensures pos + 5 + |e.info| <= end && s[pos + 5 + |e.info|..end] == rest
    ensures Int13(s[pos + 1], s[pos + 2]) == e.pid && Num12(s[pos + 3], s[pos + 4]) == |e.info|
  {
    hide Num, ByteOf, Bits13, Bits12, Int13, Num12;
    var bytes := ElementaryBytes(e);
    TailAfter(s, pos, end, bytes, rest);
    assert s[pos + 1] == bytes[1] && s[pos + 2] == bytes[2] && s[pos + 3] == bytes[3] && s[pos + 4] == bytes[4];
    Bits13Back(e.pid);
    Bits12Back(|e.info|);
  }

  lemma LoopStep(s: seq<Byte>, pos: nat, end: nat)
    requires pos + 5 <= end <= |s|
    ensures var info := Num12(s[pos + 3], s[pos + 4]);
      StreamLoop(s, pos + 5 + info, end) ==>
        && StreamLoop(s, pos, end)
        && Streams(s, pos, end) ==
             [Stream(Int13(s[pos + 1], s[pos + 2]), info)] + Streams(s, pos + 5 + info, end)
  {
    hide Num12, Int13;
  }

  lemma {:induction false} LoopBack(s: seq<Byte>, pos: nat, end: nat, es: seq<Elementary>)
    requires pos <= end <= |s| && ElementariesOk(es) && s[pos..end] == Loop(es)
    ensures StreamLoop(s, pos, end) && Streams(s, pos, end) == StreamsOf(es)
    decreases |es|
  {
    hide Num12, Int13, ElementaryBytes, ElementaryOk;
    if es == [] {
      assert pos == end;
    } else {
      assert ElementaryOk(es[0]) && ElementariesOk(es[1..]);
      ElementaryBack(s, pos, end, es[0], Loop(es[1..]));
      LoopBack(s, pos + 5 + |es[0].info|, end, es[1..]);
      hide StreamLoop, Streams;
      LoopStep(s, pos, end);
    }
  }

  // The streams that are found: all but a last one with fewer than three bytes of descriptors.
  function Found(es: seq<Elementary>): seq<Elementary> {
    if es != [] && |es[|es| - 1].info| < 3 then es[..|es| - 1] else es
  }

  function PidsOf(es: seq<Elementary>): seq<nat> { seq(|es|, i requires 0 <= i < |es| => es[i].pid) }

  lemma {:induction false} StreamsAt(es: seq<Elementary>, i: nat)
    requires i < |es|
    ensures StreamsOf(es)[i] == Stream(es[i].pid, |es[i].info|)
  {
    if i > 0 { StreamsAt(es[1..], i - 1); }
  }

  lemma FoundPids(es: seq<Elementary>)
    ensures var all := StreamsOf(es);
      StreamPidsOf(if all != [] && all[|all| - 1].infoLength < 3 then all[..|all| - 1] else all) == PidsOf(Found(es))
  {
    hide StreamsOf;
    forall i | 0 <= i < |es|
      ensures StreamsOf(es)[i] == Stream(es[i].pid, |es[i].info|)
    {
      StreamsAt(es, i);
    }
  }

  // Where the parts of the body stand in the section.
  lemma BodyParts(s: seq<Byte>, pcr: nat, info: seq<Byte>, es: seq<Elementary>)
    requires |s| >= 16 && pcr < 0x2000 && |info| < 0x1000 && ElementariesOk(es)
    requires s[8..|s| - 4] == PmtBody(pcr, info, es)
    ensures Int13(s[8], s[9]) == pcr && Num12(s[10], s[11]) == |info|
    ensures 12 + |info| <= |s| - 4 && s[12 + |info|..|s| - 4] == Loop(es)
  {
    hide Num, ByteOf, Bits13, Bits12, Int13, Num12, Loop;
    var front := Bits13(pcr) + Bits12(|info|) + info;
    TailAfter(s, 8, |s| - 4, front, Loop(es));
    assert s[8 + 0] == front[0] && s[8 + 1] == front[1] && s[8 + 2] == front[2] && s[8 + 3] == front[3];
    Bits13Back(pcr);
    Bits12Back(|info|);
  }

  lemma MappedBack(program: Program, h: Head, pcr: nat, info: seq<Byte>, es: seq<Elementary>)
    requires HeadOk(h) && pcr < 0x2000 && |info| < 0x1000 && ElementariesOk(es) && |PmtBody(pcr, info, es)| <= 171
    ensures Mapped(program, SectionOf(2, h, PmtBody(pcr, info, es))) ==
      program.(pcrPid := pcr, version := Some(h.version), streams := PidsOf(Found(es)))
  {
    hide SectionOf, PmtBody, Num12, Int13, StreamPids, StreamsOf, Loop, Found, PidsOf, Streams, StreamLoop, Version,
      StreamPidsOf;
    var s := SectionOf(2, h, PmtBody(pcr, info, es));
    HeadBack(2, h, PmtBody(pcr, info, es));
    BodyParts(s, pcr, info, es);
    var pos, end := 12 + |info|, |s| - 4;
    LoopBack(s, pos, end, es);
    StreamsBound(s, pos, end);
    StreamLimitNeverReached(s, pos, end - 3, MAX_STREAMS, 40);
    ShortLastStreamMissed(s, pos, end, 40);
    FoundPids(es);
  }

  // Reading the map of a known program with a new version takes over its clock PID and the PIDs of these streams.
  lemma MapBack(c: Cache, pid: nat, l: Lead, h: Head, pcr: nat, info: seq<Byte>, es: seq<Elementary>)
    requires pid < 0x2000 && HeadOk(h)
    requires pcr < 0x2000 && |info| < 0x1000 && ElementariesOk(es) && |PmtBody(pcr, info, es)| <= 171
    requires Fits(l, SectionOf(2, h, PmtBody(pcr, info, es)))
    ensures
      var k := FindMap(c.programs, pid, 0);
      ParsePmt(c, PacketOf(pid, l, SectionOf(2, h, PmtBody(pcr, info, es))), pid) ==
        if h.current && k < |c.programs| && c.programs[k].number == h.extension
           && c.programs[k].version != Some(h.version)
        then c.(programs := c.programs[k := c.programs[k].(pcrPid := pcr, version := Some(h.version),
                                                           streams := PidsOf(Found(es)))])
        else c
  {
    hide ByteOf, Num, Num12, PacketOf, SectionOf, SectionStart, Section, PmtBody, Version, Mapped, FindMap, Found,
      PidsOf;
    var body := PmtBody(pcr, info, es);
    var k := FindMap(c.programs, pid, 0);
    SectionBack(pid, l, 2, h, body, 13);
    HeadBack(2, h, body);
    if k < |c.programs| { MappedBack(c.programs[k], h, pcr, info, es); }
  }

  // ---- the lists of a selection ----

  // A PID belongs to the first program of a number: it is its clock PID or one of its streams.
  lemma {:induction false} BelongsToFirst(programs: seq<Program>, pid: nat, number: nat)
    ensures Belongs(programs, pid, number) <==>
      exists k :: 0 <= k < |programs| && programs[k].number == number
                  && (forall j :: 0 <= j < k ==> programs[j].number != number)
                  && ((programs[k].pcrPid == pid && pid != NO_PID) || pid in programs[k].streams)
  {
    if programs != [] && programs[0].number != number {
      BelongsToFirst(programs[1..], pid, number);
      if Belongs(programs, pid, number) {
        var k :| 0 <= k < |programs[1..]| && programs[1..][k].number == number
                 && (forall j :: 0 <= j < k ==> programs[1..][j].number != number)
                 && ((programs[1..][k].pcrPid == pid && pid != NO_PID) || pid in programs[1..][k].streams);
        forall j | 0 <= j < k + 1
          ensures programs[j].number != number
        {
          if j > 0 { assert programs[1..][j - 1].number != number; }
        }
        assert programs[k + 1] == programs[1..][k];
      }
      forall k | 0 <= k < |programs| && programs[k].number == number
        ensures k > 0 && programs[1..][k - 1] == programs[k]
      {
      }
    }
  }

  // A requested PID always stays, and so does everything while no selection is active.
  lemma RequestedPidStays(c: Cache, p: TsPacket, s: Selection)
    requires !s.active || (s.requestedPids.Some? && Pid(p) in s.requestedPids.value)
    ensures FilterPacket(c, p, s).1 == p
  {
    hide ParsePsi, Pid;
  }

  // A blocked PID goes, unless it is mandatory or requested.
  lemma BlockedPidGoes(c: Cache, p: TsPacket, s: Selection)
    requires HasSync(p) && s.active && s.blockedPids.Some? && Pid(p) in s.blockedPids.value
    requires !Mandatory(ParsePsi(c, p), Pid(p)) && !(s.requestedPids.Some? && Pid(p) in s.requestedPids.value)
    ensures FilterPacket(c, p, s).1 == NullPacket(188)
  {
    hide ParsePsi, Pid, Mandatory;
  }

  // With requested programs, of the PIDs on no list exactly the mandatory ones and those of these programs stay,
  // whatever programs are blocked.
  lemma RequestedProgramsStay(c: Cache, p: TsPacket, s: Selection)
    requires HasSync(p) && s.active && s.requestedPrograms.Some?
    requires s.requestedPids.Some? ==> Pid(p) !in s.requestedPids.value
    requires s.blockedPids.Some? ==> Pid(p) !in s.blockedPids.value
    ensures var c' := ParsePsi(c, p);
      FilterPacket(c, p, s).1 ==
        if Mandatory(c', Pid(p)) || BelongsToAny(c'.programs, Pid(p), s.requestedPrograms.value)
        then p else NullPacket(188)
  {
    hide ParsePsi, Pid, Mandatory, BelongsToAny, NullPacket;
  }

  // A PID of a blocked program goes, unless it is mandatory, requested, or programs are requested.
  lemma BlockedProgramGoes(c: Cache, p: TsPacket, s: Selection)
    requires HasSync(p) && s.active && s.requestedPrograms.None? && s.blockedPrograms.Some?
    requires BelongsToAny(ParsePsi(c, p).programs, Pid(p), s.blockedPrograms.value)
    requires !Mandatory(ParsePsi(c, p), Pid(p)) && !(s.requestedPids.Some? && Pid(p) in s.requestedPids.value)
    ensures FilterPacket(c, p, s).1 == NullPacket(188)
  {
    hide ParsePsi, Pid, Mandatory, BelongsToAny, NullPacket;
  }

  // What no list mentions stays exactly if nothing is requested or it is mandatory.
  lemma UnmentionedStays(c: Cache, p: TsPacket, s: Selection)
    requires HasSync(p) && s.active && s.requestedPrograms.None?
    requires s.requestedPids.Some? ==> Pid(p) !in s.requestedPids.value
    requires s.blockedPids.Some? ==> Pid(p) !in s.blockedPids.value
    requires s.blockedPrograms.Some? ==> !BelongsToAny(ParsePsi(c, p).programs, Pid(p), s.blockedPrograms.value)
    ensures FilterPacket(c, p, s).1 ==
      if Mandatory(ParsePsi(c, p), Pid(p)) || s.requestedPids.None? then p else NullPacket(188)
  {
    hide ParsePsi, Pid, Mandatory, BelongsToAny, NullPacket;
  }

  // ---- tables, then the filter ----

  const UNREAD := Cache(None, [], None, [])

  // The cache after an association section with this one program and its map.
  lemma OneProgram(number: U16, mapPid: nat, a: Head, m: Head, l: Lead, pcr: nat, info: seq<Byte>,
                   es: seq<Elementary>)
    requires number > 0 && 1 < mapPid < 0x2000
    requires HeadOk(a) && HeadOk(m) && a.current && m.current && m.extension == number
    requires pcr < 0x2000 && |info| < 0x1000 && ElementariesOk(es) && |PmtBody(pcr, info, es)| <= 171
    requires Fits(l, SectionOf(0, a, PatBody([Listed(number, mapPid)])))
    requires Fits(l, SectionOf(2, m, PmtBody(pcr, info, es)))
    ensures
      var pat := PacketOf(0, l, SectionOf(0, a, PatBody([Listed(number, mapPid)])));
      var pmt := PacketOf(mapPid, l, SectionOf(2, m, PmtBody(pcr, info, es)));
      ParsePsi(ParsePsi(UNREAD, pat), pmt) ==
        Cache(Some(a.version), [Program(number, mapPid, pcr, PidsOf(Found(es)), Some(m.version))], None, [])
  {
    hide PacketOf, SectionOf, PatBody, PmtBody, ParsePat, ParsePmt, Found, PidsOf;
    var ls := [Listed(number, mapPid)];
    PatBack(UNREAD, 0, l, a, ls);
    PidBack(0, l, SectionOf(0, a, PatBody(ls)));
    OneListed(number, mapPid);
    var c := UNREAD.(patVersion := Some(a.version), programs := [Program(number, mapPid, NO_PID, [], None)]);
    MapBack(c, mapPid, l, m, pcr, info, es);
    PidBack(mapPid, l, SectionOf(2, m, PmtBody(pcr, info, es)));
  }

  lemma OneListed(number: U16, mapPid: nat)
    requires number > 0
    ensures ProgramsOf([Listed(number, mapPid)]) == [Program(number, mapPid, NO_PID, [], None)]
  {
  }

  // A receiver that asks for one program gets its map, its clock and the streams found in it, the tables of the
  // reserved PIDs, and null packets in place of all others.
  lemma ProgramIsSelected(number: U16, mapPid: nat, a: Head, m: Head, l: Lead, pcr: nat, info: seq<Byte>,
                          es: seq<Elementary>, p: TsPacket)
    requires number > 0 && 1 < mapPid < 0x2000
    requires HeadOk(a) && HeadOk(m) && a.current && m.current && m.extension == number
    requires pcr < 0x2000 && |info| < 0x1000 && ElementariesOk(es) && |PmtBody(pcr, info, es)| <= 171
    requires Fits(l, SectionOf(0, a, PatBody([Listed(number, mapPid)])))
    requires Fits(l, SectionOf(2, m, PmtBody(pcr, info, es)))
    requires HasSync(p) && Pid(p) > 1 && Pid(p) != mapPid
    ensures
      var pat := PacketOf(0, l, SectionOf(0, a, PatBody([Listed(number, mapPid)])));
      var pmt := PacketOf(mapPid, l, SectionOf(2, m, PmtBody(pcr, info, es)));
      var s := Selection(true, Some([number as nat]), None, None, None);
      var out := FilterPackets(UNREAD, [pat, pmt, p], s).1;
      && |out| == 3 && out[0] == pat && out[1] == pmt
      && out[2] == if Pid(p) <= 0x1F || (Pid(p) == pcr && pcr != NO_PID) || Pid(p) in PidsOf(Found(es))
                   then p else NullPacket(188)
  {
    hide PacketOf, SectionOf, PatBody, PmtBody, ParsePsi, Found, PidsOf, NullPacket, Included;
    var pat := PacketOf(0, l, SectionOf(0, a, PatBody([Listed(number, mapPid)])));
    var pmt := PacketOf(mapPid, l, SectionOf(2, m, PmtBody(pcr, info, es)));
    var s := Selection(true, Some([number as nat]), None, None, None);
    OneProgram(number, mapPid, a, m, l, pcr, info, es);
    PidBack(0, l, SectionOf(0, a, PatBody([Listed(number, mapPid)])));
    PidBack(mapPid, l, SectionOf(2, m, PmtBody(pcr, info, es)));
    var c2 := ParsePsi(ParsePsi(UNREAD, pat), pmt);
    OtherPidReadsNothing(c2, p, mapPid);
    IncludedByProgram(c2, Pid(p), number, mapPid, s);
    IncludedByProgram(c2, mapPid, number, mapPid, s);
    ReservedIncluded(ParsePsi(UNREAD, pat), s);
    ThreePackets(UNREAD, pat, pmt, p, s);
  }

  lemma ReservedIncluded(c: Cache, s: Selection)
    ensures Included(c, 0, s)
  {
  }

  lemma OtherPidReadsNothing(c: Cache, p: TsPacket, mapPid: nat)
    requires |c.programs| == 1 && c.programs[0].pmtPid == mapPid && Pid(p) > 1 && Pid(p) != mapPid
    ensures ParsePsi(c, p) == c
  {
    hide Pid, ParsePat, ParseCat, ParsePmt;
  }

  lemma IncludedByProgram(c: Cache, pid: nat, number: nat, mapPid: nat, s: Selection)
    requires |c.programs| == 1 && c.programs[0].pmtPid == mapPid && c.programs[0].number == number && c.emmPids == []
    requires s == Selection(true, Some([number]), None, None, None)
    ensures Included(c, pid, s) <==>
      pid <= 0x1F || pid == mapPid || (pid == c.programs[0].pcrPid && pid != NO_PID) || pid in c.programs[0].streams
  {
    assert number in [number];
  }

  lemma OnePacket(c: Cache, p: TsPacket, rest: seq<TsPacket>, s: Selection)
    ensures FilterPackets(c, [p] + rest, s).1 ==
      [FilterPacket(c, p, s).1] + FilterPackets(FilterPacket(c, p, s).0, rest, s).1
  {
    hide FilterPacket;
    assert ([p] + rest)[1..] == rest;
  }

  lemma ThreePackets(c: Cache, p0: TsPacket, p1: TsPacket, p2: TsPacket, s: Selection)
    ensures
      var (c1, q0) := FilterPacket(c, p0, s);
      var (c2, q1) := FilterPacket(c1, p1, s);
      FilterPackets(c, [p0, p1, p2], s).1 == [q0, q1, FilterPacket(c2, p2, s).1]
  {
    hide FilterPacket, FilterPackets;
    var (c1, q0) := FilterPacket(c, p0, s);
    var (c2, q1) := FilterPacket(c1, p1, s);
    assert [p0, p1, p2] == [p0] + ([p1] + ([p2] + []));
    OnePacket(c, p0, [p1] + ([p2] + []), s);
    OnePacket(c1, p1, [p2] + [], s);
    OnePacket(c2, p2, [], s);
    NoPackets(FilterPacket(c2, p2, s).0, s);
  }

  lemma NoPackets(c: Cache, s: Selection)
    ensures FilterPackets(c, [], s).1 == []
  {
  }
}
