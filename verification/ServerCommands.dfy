/** Packing the runtime commands of many servers into as few socket payloads as fit. */
module ServerCommands {
  import opened Wrappers
  import opened Text

  const BUFFER_SIZE := 16000

  datatype ServerState = ServerState(backend: string, server: string, ip: string, state: string, port: int)

  function Digits(n: nat): (r: string)
    ensures r != ""
  {
    var last := [(n % 10) as char + '0'];
    if n < 10 then last else Digits(n / 10) + last
  }

  /** The two commands for one server, each closed by a semicolon. */
  function Command(s: ServerState): (r: string)
    ensures r != ""
  {
    AddrCommand(s) + ";" + StateCommand(s) + ";"
  }

  function AddrCommand(s: ServerState): string {
    "set server " + s.backend + "/" + s.server + " addr " + s.ip + if s.port > 0 then " port " + Digits(s.port) else ""
  }

  function StateCommand(s: ServerState): string {
    "set server " + s.backend + "/" + s.server + " state " + s.state
  }

  // ---- how a reader takes the commands apart

  /** The number a decimal text stands for. */
  function Value(digits: string): int {
    if digits == "" then 0 else Value(digits[..|digits| - 1]) * 10 + (digits[|digits| - 1] as int - '0' as int)
  }

  lemma {:induction false} DigitsValue(n: nat)
    ensures Value(Digits(n)) == n && forall c :: c in Digits(n) ==> '0' <= c <= '9'
  {
    var last := [(n % 10) as char + '0'];
    if n < 10 {
      assert Digits(n) == last && last[..0] == "";
    } else {
      DigitsValue(n / 10);
      assert Digits(n) == Digits(n / 10) + last;
      assert Digits(n)[..|Digits(n)| - 1] == Digits(n / 10);
    }
  }

  ghost function AddrWords(s: ServerState): seq<string> {
    ["set", "server", s.backend + "/" + s.server, "addr", s.ip] + if s.port > 0 then ["port", Digits(s.port)] else []
  }

  ghost function StateWords(s: ServerState): seq<string> {
    ["set", "server", s.backend + "/" + s.server, "state", s.state]
  }

  ghost predicate FieldsWithout(s: ServerState, c: char) {
    c !in s.backend && c !in s.server && c !in s.ip && c !in s.state
  }

  lemma JoinCons(p: string, rest: seq<string>, c: char)
    requires rest != []
    ensures Join([p] + rest, c) == p + [c] + Join(rest, c)
  {
    assert ([p] + rest)[1..] == rest;
  }

  lemma {:induction false} InJoin(parts: seq<string>, c: char, d: char)
    requires c != d
    ensures d in Join(parts, c) <==> exists i :: 0 <= i < |parts| && d in parts[i]
  {
    if |parts| > 1 {
      InJoin(parts[1..], c, d);
      assert parts == [parts[0]] + parts[1..];
      if d in Join(parts[1..], c) {
        var i :| 0 <= i < |parts[1..]| && d in parts[1..][i];
        assert d in parts[i + 1];
      }
    }
  }

  /** What the first four words of either command look like. */
  ghost function Lead(s: ServerState, verb: string): string {
    "set server " + s.backend + "/" + s.server + " " + verb + " "
  }

  lemma LeadText(s: ServerState, verb: string, rest: seq<string>)
    requires rest != []
    ensures Join(["set", "server", s.backend + "/" + s.server, verb] + rest, ' ') == Lead(s, verb) + Join(rest, ' ')
  {
    hide Join;
    var name := s.backend + "/" + s.server;
    FourMore("set", "server", name, verb, rest);
    assert "set" + " " + "server" + " " == "set server ";
    assert "set server " + name + " " + verb + " " == Lead(s, verb);
  }

  lemma FourMore(a: string, b: string, c: string, d: string, rest: seq<string>)
    requires rest != []
    ensures Join([a, b, c, d] + rest, ' ') == a + " " + b + " " + c + " " + d + " " + Join(rest, ' ')
  {
    TwoMore(c, d, rest);
    TwoMore(a, b, [c, d] + rest);
    assert [a, b, c, d] + rest == [a, b] + ([c, d] + rest);
    hide Join;
    var t := Join(rest, ' ');
    assert a + " " + b + " " + (c + " " + d + " " + t) == a + " " + b + " " + c + " " + d + " " + t;
  }

  lemma TwoMore(a: string, b: string, rest: seq<string>)
    requires rest != []
    ensures Join([a, b] + rest, ' ') == a + " " + b + " " + Join(rest, ' ')
  {
    JoinCons(b, rest, ' ');
    JoinCons(a, [b] + rest, ' ');
    assert [a, b] + rest == [a] + ([b] + rest);
    hide Join;
    var t := Join(rest, ' ');
    assert a + [' '] + (b + [' '] + t) == a + " " + b + " " + t;
  }

  lemma PortText(ip: string, port: string)
    ensures Join([ip] + (["port"] + [port]), ' ') == ip + (" port " + port)
  {
    JoinCons("port", [port], ' ');
    JoinCons(ip, ["port"] + [port], ' ');
    assert ip + [' '] + ("port" + [' '] + port) == ip + (" port " + port);
  }

  lemma AddrText(s: ServerState)
    ensures Join(AddrWords(s), ' ') == AddrCommand(s)
  {
    hide Digits;
    var name := s.backend + "/" + s.server;
    var tail := [s.ip] + if s.port > 0 then ["port"] + [Digits(s.port)] else [];
    assert AddrWords(s) == ["set", "server", name, "addr"] + tail;
    LeadText(s, "addr", tail);
    var text := if s.port > 0 then " port " + Digits(s.port) else "";
    PortText(s.ip, Digits(if s.port > 0 then s.port else 0));
    assert s.port <= 0 ==> tail == [s.ip] && Join([s.ip], ' ') == s.ip + "";
    assert Join(tail, ' ') == s.ip + text;
    hide Join, AddrWords;
    AddrLead(s, text);
  }

  lemma AddrLead(s: ServerState, text: string)
    ensures Lead(s, "addr") + (s.ip + text) == "set server " + s.backend + "/" + s.server + " addr " + s.ip + text
  {
    assert " " + "addr" + " " == " addr ";
    var name := "set server " + s.backend + "/" + s.server;
    assert Lead(s, "addr") == name + " addr ";
    assert name + " addr " + (s.ip + text) == name + " addr " + s.ip + text;
  }

  lemma StateText(s: ServerState)
    ensures Join(StateWords(s), ' ') == StateCommand(s)
  {
    LeadText(s, "state", [s.state]);
    assert StateWords(s) == ["set", "server", s.backend + "/" + s.server, "state"] + [s.state];
    assert " " + "state" + " " == " state ";
    assert Lead(s, "state") == "set server " + s.backend + "/" + s.server + " state ";
  }

  /** Split at semicolons and then at spaces, the text reads as the two commands exactly
      when no field holds either; and the port reads as the number it is. */
  lemma CommandReads(s: ServerState)
    ensures Split(Command(s), ';') == [AddrCommand(s), StateCommand(s), ""] <==> FieldsWithout(s, ';')
    ensures Split(AddrCommand(s), ' ') == AddrWords(s) && Split(StateCommand(s), ' ') == StateWords(s) <==> FieldsWithout(s, ' ')
    ensures s.port > 0 ==> Value(Digits(s.port)) == s.port
  {
    if s.port > 0 { DigitsValue(s.port); }
    AddrText(s);
    StateText(s);
    hide Digits, AddrCommand, StateCommand, AddrWords, StateWords, Join, Split;
    JoinThree(AddrCommand(s), StateCommand(s));
    SplitJoin([AddrCommand(s), StateCommand(s), ""], ';');
    SplitJoin(AddrWords(s), ' ');
    SplitJoin(StateWords(s), ' ');
    WordsWithout(s, ';');
    WordsWithout(s, ' ');
    InJoin(AddrWords(s), ' ', ';');
    InJoin(StateWords(s), ' ', ';');
    var three := [AddrCommand(s), StateCommand(s), ""];
    assert (forall i :: 0 <= i < 3 ==> ';' !in three[i]) <==> ';' !in three[0] && ';' !in three[1];
  }

  lemma JoinThree(a: string, b: string)
    ensures Join([a, b, ""], ';') == a + ";" + b + ";"
  {
    JoinCons(b, [""], ';');
    JoinCons(a, [b] + [""], ';');
    assert [a] + ([b] + [""]) == [a, b, ""];
  }

  lemma WordsWithout(s: ServerState, c: char)
    requires c == ';' || c == ' '
    ensures (forall i :: 0 <= i < |AddrWords(s)| ==> c !in AddrWords(s)[i]) && (forall i :: 0 <= i < |StateWords(s)| ==> c !in StateWords(s)[i])
       <==> FieldsWithout(s, c)
  {
    var aw, sw := AddrWords(s), StateWords(s);
    if s.port > 0 { DigitsValue(s.port); }
    assert c !in "set" && c !in "server" && c !in "addr" && c !in "port" && c !in "state" && c !in "/";
    assert c in aw[2] <==> c in s.backend || c in s.server;
    assert aw[4] == s.ip && sw[4] == s.state;
    hide Digits;
    if FieldsWithout(s, c) {
      forall i | 0 <= i < |aw| ensures c !in aw[i] {}
      forall i | 0 <= i < |sw| ensures c !in sw[i] {}
    }
  }

  ghost function Commands(servers: seq<ServerState>): seq<string> {
    seq(|servers|, i requires 0 <= i < |servers| => Command(servers[i]))
  }

  function Concat(cmds: seq<string>): string {
    if cmds == [] then "" else Concat(cmds[..|cmds| - 1]) + cmds[|cmds| - 1]
  }

  ghost function Flatten(groups: seq<seq<string>>): seq<string> {
    if groups == [] then [] else Flatten(groups[..|groups| - 1]) + groups[|groups| - 1]
  }

  ghost function Texts(groups: seq<seq<string>>): seq<string> {
    seq(|groups|, i requires 0 <= i < |groups| => Concat(groups[i]))
  }

  lemma ConcatSnoc(cmds: seq<string>, c: string)
    ensures Concat(cmds + [c]) == Concat(cmds) + c
  {
    assert (cmds + [c])[..|cmds|] == cmds;
  }

  lemma ConcatOne(c: string)
    ensures Concat([c]) == c && Concat([]) == ""
  {
    ConcatSnoc([], c);
    assert [] + [c] == [c];
  }

  lemma FlattenSnoc(groups: seq<seq<string>>, g: seq<string>)
    ensures Flatten(groups + [g]) == Flatten(groups) + g
  {
    assert (groups + [g])[..|groups|] == groups;
  }

  /** A way to send the commands: in order, none cut in two, every payload within the bound. */
  ghost predicate LegalSplit(groups: seq<seq<string>>, cmds: seq<string>) {
    Flatten(groups) == cmds && forall i :: 0 <= i < |groups| ==> |Concat(groups[i])| < BUFFER_SIZE
  }

  // ---- the greedy packing

  datatype Packing = Packing(sent: seq<seq<string>>, pending: seq<string>)

  ghost function Add(p: Packing, c: string): Packing {
    if |Concat(p.pending)| + |c| >= BUFFER_SIZE then Packing(p.sent + [p.pending], [c])
    else Packing(p.sent, p.pending + [c])
  }

  ghost function Packed(cmds: seq<string>): Packing {
    if cmds == [] then Packing([], []) else Add(Packed(cmds[..|cmds| - 1]), cmds[|cmds| - 1])
  }

  ghost function GroupsOf(cmds: seq<string>): seq<seq<string>> {
    var p := Packed(cmds);
    if Concat(p.pending) == "" then p.sent else p.sent + [p.pending]
  }

  ghost function Payloads(cmds: seq<string>): seq<string> {
    Texts(GroupsOf(cmds))
  }

  lemma PackedSnoc(cmds: seq<string>, c: string)
    ensures Packed(cmds + [c]) == Add(Packed(cmds), c)
  {
    assert (cmds + [c])[..|cmds|] == cmds;
  }

  ghost predicate NonEmpty(cmds: seq<string>) {
    forall i :: 0 <= i < |cmds| ==> cmds[i] != ""
  }

  lemma CommandsNonEmpty(servers: seq<ServerState>)
    ensures NonEmpty(Commands(servers))
  {}

  ghost function AllOf(p: Packing): seq<string> {
    Flatten(p.sent + [p.pending])
  }

  lemma AddKeepsAll(p: Packing, c: string)
    requires c != ""
    ensures AllOf(Add(p, c)) == AllOf(p) + [c] && Concat(Add(p, c).pending) != ""
  {
    hide Flatten, Concat;
    ConcatSnoc(p.pending, c);
    ConcatOne(c);
    FlattenSnoc(p.sent, p.pending);
    FlattenSnoc(p.sent, p.pending + [c]);
    FlattenSnoc(p.sent + [p.pending], [c]);
  }

  lemma {:induction false} PackedKeepsAll(cmds: seq<string>)
    requires NonEmpty(cmds)
    ensures AllOf(Packed(cmds)) == cmds
    ensures Concat(Packed(cmds).pending) == "" <==> cmds == []
  {
    if cmds == [] {
      FlattenSnoc([], []);
      ConcatOne("");
    } else {
      hide Flatten, Concat;
      var before, c := cmds[..|cmds| - 1], cmds[|cmds| - 1];
      PackedKeepsAll(before);
      AddKeepsAll(Packed(before), c);
      assert cmds == before + [c];
    }
  }

  /** The payloads carry all commands, in order, none cut in two. */
  lemma GroupsKeepAll(cmds: seq<string>)
    requires NonEmpty(cmds)
    ensures Flatten(GroupsOf(cmds)) == cmds
    ensures Concat(Payloads(cmds)) == Concat(cmds)
  {
    PackedKeepsAll(cmds);
    assert cmds == [] ==> Packed(cmds).sent == [];
    ConcatTexts(GroupsOf(cmds));
  }

  lemma {:induction false} ConcatTexts(groups: seq<seq<string>>)
    ensures Concat(Texts(groups)) == Concat(Flatten(groups))
  {
    if groups != [] {
      var n := |groups| - 1;
      ConcatTexts(groups[..n]);
      assert Texts(groups) == Texts(groups[..n]) + [Concat(groups[n])];
      ConcatSnoc(Texts(groups[..n]), Concat(groups[n]));
      ConcatPlus(Flatten(groups[..n]), groups[n]);
    }
  }

  lemma {:induction false} ConcatPlus(a: seq<string>, b: seq<string>)
    ensures Concat(a + b) == Concat(a) + Concat(b)
  {
    if b == [] {
      assert a + b == a;
    } else {
      hide Concat;
      var n := |b| - 1;
      ConcatPlus(a, b[..n]);
      ConcatSnoc(a + b[..n], b[n]);
      ConcatSnoc(b[..n], b[n]);
      assert a + b == (a + b[..n]) + [b[n]] && b == b[..n] + [b[n]];
      PlusAssociative(Concat(a), Concat(b[..n]), b[n]);
    }
  }

  lemma PlusAssociative(a: string, b: string, c: string)
    ensures (a + b) + c == a + (b + c)
  {}

  // ---- the bound

  ghost predicate WithinBound(payload: string) {
    0 < |payload| < BUFFER_SIZE
  }

  ghost predicate InBound(p: Packing) {
    (forall i :: 0 <= i < |p.sent| ==> WithinBound(Concat(p.sent[i]))) && |Concat(p.pending)| < BUFFER_SIZE
  }

  lemma AddInBound(p: Packing, c: string)
    requires InBound(p) && |c| < BUFFER_SIZE && (Concat(p.pending) == "" ==> p.pending == [])
    ensures InBound(Add(p, c))
  {
    hide Concat;
    ConcatSnoc(p.pending, c);
    ConcatOne(c);
  }

  lemma {:induction false} PackedWithinBound(cmds: seq<string>)
    requires NonEmpty(cmds) && forall i :: 0 <= i < |cmds| ==> |cmds[i]| < BUFFER_SIZE
    ensures InBound(Packed(cmds))
  {
    if cmds != [] {
      var before, c := cmds[..|cmds| - 1], cmds[|cmds| - 1];
      PackedWithinBound(before);
      PackedKeepsAll(before);
      if before == [] { assert Packed(before).pending == []; }
      hide Concat, Flatten;
      AddInBound(Packed(before), c);
    }
  }

  /** Every payload is non-empty and below the buffer size exactly when every single
      command is; one oversized command makes an oversized payload. */
  lemma PayloadsWithinBound(cmds: seq<string>)
    requires NonEmpty(cmds)
    ensures (forall i :: 0 <= i < |Payloads(cmds)| ==> WithinBound(Payloads(cmds)[i]))
       <==> (forall i :: 0 <= i < |cmds| ==> |cmds[i]| < BUFFER_SIZE)
  {
    var groups := GroupsOf(cmds);
    if forall i :: 0 <= i < |cmds| ==> |cmds[i]| < BUFFER_SIZE {
      PackedWithinBound(cmds);
    } else {
      var i :| 0 <= i < |cmds| && |cmds[i]| >= BUFFER_SIZE;
      GroupsKeepAll(cmds);
      var g := GroupWith(groups, i);
      assert !WithinBound(Payloads(cmds)[g]);
    }
  }

  /** An oversized first command is preceded by an empty payload. */
  lemma OversizedSendsEmpty(cmds: seq<string>)
    requires cmds != [] && |cmds[0]| >= BUFFER_SIZE
    ensures Payloads(cmds) != [] && Payloads(cmds)[0] == ""
  {
    hide Concat, Packed;
    NothingPacked();
    PackedSnoc([], cmds[0]);
    assert cmds[..1] == [cmds[0]] == [] + [cmds[0]];
    PackedGrows(cmds, 1);
    var groups := GroupsOf(cmds);
    assert [[]] <= Packed(cmds).sent <= groups;
    assert groups[0] == [];
  }

  // ---- how long a command is

  lemma CommandLength(s: ServerState)
    ensures |Command(s)| == 39 + 2 * (|s.backend| + |s.server|) + |s.ip| + |s.state| + if s.port > 0 then 6 + |Digits(s.port)| else 0
  {
    hide Digits;
    assert |AddrCommand(s)| == 18 + |s.backend| + |s.server| + |s.ip| + if s.port > 0 then 6 + |Digits(s.port)| else 0;
    assert |StateCommand(s)| == 19 + |s.backend| + |s.server| + |s.state|;
  }

  /** What servers that disappeared are set to; the program sends nothing else. */
  predicate InMaintenance(s: ServerState) {
    s.ip == "127.0.0.1" && s.state == "maint" && s.port == 1
  }

  const NAMES_BOUND := 7970

  lemma MaintenanceLength(s: ServerState)
    requires InMaintenance(s)
    ensures |Command(s)| < BUFFER_SIZE <==> |s.backend| + |s.server| < NAMES_BOUND
  {
    CommandLength(s);
    assert |Digits(1)| == 1;
  }

  /** Of the servers the program sends, the payloads are non-empty and within the bound
      exactly when no pair of names is as long as half the buffer. */
  lemma MaintenanceWithinBound(servers: seq<ServerState>)
    requires forall i :: 0 <= i < |servers| ==> InMaintenance(servers[i])
    ensures (forall i :: 0 <= i < |Payloads(Commands(servers))| ==> WithinBound(Payloads(Commands(servers))[i]))
       <==> (forall i :: 0 <= i < |servers| ==> |servers[i].backend| + |servers[i].server| < NAMES_BOUND)
    ensures servers != [] && |servers[0].backend| + |servers[0].server| >= NAMES_BOUND ==>
              Payloads(Commands(servers)) != [] && Payloads(Commands(servers))[0] == ""
  {
    hide Command, Payloads, InMaintenance, WithinBound;
    var cmds := Commands(servers);
    forall i | 0 <= i < |servers| ensures |cmds[i]| < BUFFER_SIZE <==> |servers[i].backend| + |servers[i].server| < NAMES_BOUND {
      MaintenanceLength(servers[i]);
    }
    PayloadsWithinBound(cmds);
    if servers != [] && |servers[0].backend| + |servers[0].server| >= NAMES_BOUND {
      OversizedSendsEmpty(cmds);
    }
  }

  /** The names the default templates give, the link being configured too. */
  function DefaultBackendName(link: string, ns: string, service: string, port: nat, filterHash: string): string {
    link + "_" + ns + "_" + service + "_" + Digits(port) + "_" + filterHash
  }

  function DefaultServerName(addressHash: string): string {
    "SRV_" + addressHash
  }

  lemma PortDigits(port: nat)
    requires port < 0x1_0000
    ensures |Digits(port)| <= 5
  {
    OneMoreDigit(port);
    OneMoreDigit(port / 10);
    OneMoreDigit(port / 100);
    OneMoreDigit(port / 1000);
    assert |Digits(port / 10000)| == 1;
  }

  lemma OneMoreDigit(n: nat)
    ensures |Digits(n)| <= 1 + |Digits(n / 10)|
  {}

  /** Kubernetes names, a hexadecimal MD5 and a hexadecimal SHA-1 are far too short: with
      the default templates only a link of thousands of characters reaches the bound. */
  lemma DefaultNamesFit(s: ServerState, link: string, ns: string, service: string, port: nat, filterHash: string, addressHash: string)
    requires InMaintenance(s)
    requires s.backend == DefaultBackendName(link, ns, service, port, filterHash) && s.server == DefaultServerName(addressHash)
    requires |ns| <= 63 && |service| <= 253 && port < 0x1_0000 && |filterHash| <= 32 && |addressHash| == 40
    requires |link| <= 7500
    ensures |Command(s)| < BUFFER_SIZE
  {
    hide Digits, Command;
    PortDigits(port);
    MaintenanceLength(s);
  }

  lemma {:induction false} GroupWith(groups: seq<seq<string>>, i: nat) returns (g: nat)
    requires i < |Flatten(groups)|
    ensures g < |groups| && |Concat(groups[g])| >= |Flatten(groups)[i]|
  {
    var n := |groups| - 1;
    var rest := Flatten(groups[..n]);
    if i < |rest| {
      g := GroupWith(groups[..n], i);
    } else {
      g := n;
      ConcatLength(groups[n], i - |rest|);
    }
  }

  lemma {:induction false} ConcatLength(cmds: seq<string>, i: nat)
    requires i < |cmds|
    ensures |Concat(cmds)| >= |cmds[i]|
  {
    if i < |cmds| - 1 { ConcatLength(cmds[..|cmds| - 1], i); }
  }

  // ---- no better packing

  /** Among all ways to split the same commands the greedy one is never behind: it has no
      more groups, and with as many, no longer last one. */
  lemma {:induction false} GreedyStaysAhead(cmds: seq<string>, groups: seq<seq<string>>)
    requires LegalSplit(groups, cmds) && groups != []
    ensures |Packed(cmds).sent| + 1 <= |groups|
    ensures |Packed(cmds).sent| + 1 == |groups| ==> |Concat(Packed(cmds).pending)| <= |Concat(groups[|groups| - 1])|
    decreases |groups| + |cmds|
  {
    hide Concat, Flatten, Packed;
    var k := |groups| - 1;
    if cmds == [] {
      NothingPacked();
    } else if groups[k] == [] {
      LegalPrefix(groups, cmds);
      GreedyStaysAhead(cmds, groups[..k]);
    } else {
      var before, c := cmds[..|cmds| - 1], cmds[|cmds| - 1];
      var less := groups[k][..|groups[k]| - 1];
      WithoutLast(groups, cmds);
      GreedyStaysAhead(before, groups[..k] + [less]);
      assert cmds == before + [c];
      PackedSnoc(before, c);
      ConcatSnoc(Packed(before).pending, c);
      ConcatOne(c);
    }
  }

  lemma WithoutLast(groups: seq<seq<string>>, cmds: seq<string>)
    requires LegalSplit(groups, cmds) && groups != [] && cmds != [] && groups[|groups| - 1] != []
    ensures var k := |groups| - 1;
            var less := groups[k][..|groups[k]| - 1];
            && LegalSplit(groups[..k] + [less], cmds[..|cmds| - 1])
            && |Concat(groups[k])| == |Concat(less)| + |cmds[|cmds| - 1]|
  {
    var k := |groups| - 1;
    var g := groups[k];
    var less, c := g[..|g| - 1], g[|g| - 1];
    assert g == less + [c];
    ConcatSnoc(less, c);
    hide Concat;
    FlattenSnoc(groups[..k], less);
    assert Flatten(groups) == Flatten(groups[..k]) + g;
    assert Flatten(groups[..k]) + g == (Flatten(groups[..k]) + less) + [c];
    forall i | 0 <= i < k + 1 ensures |Concat((groups[..k] + [less])[i])| < BUFFER_SIZE {
      assert |Concat(groups[i])| < BUFFER_SIZE;
    }
  }

  lemma LegalPrefix(groups: seq<seq<string>>, cmds: seq<string>)
    requires LegalSplit(groups, cmds) && groups != [] && groups[|groups| - 1] == [] && cmds != []
    ensures groups[..|groups| - 1] != [] && LegalSplit(groups[..|groups| - 1], cmds)
  {
    FlattenSnoc(groups[..|groups| - 1], []);
    assert Flatten([]) == [];
    assert groups == groups[..|groups| - 1] + [[]];
  }

  /** No way to send the commands within the bound takes fewer payloads. */
  lemma FewestPayloads(cmds: seq<string>, groups: seq<seq<string>>)
    requires NonEmpty(cmds) && LegalSplit(groups, cmds)
    ensures |Payloads(cmds)| <= |groups|
  {
    if cmds == [] {
      assert Packed(cmds).sent == [];
    } else {
      GreedyStaysAhead(cmds, groups);
    }
  }

  /** What was sent so far never changes as more commands are packed. */
  lemma {:induction false} PackedGrows(cmds: seq<string>, n: nat)
    requires n <= |cmds|
    ensures Packed(cmds[..n]).sent <= Packed(cmds).sent
    decreases |cmds|
  {
    if n == |cmds| {
      assert cmds[..n] == cmds;
    } else {
      var before := cmds[..|cmds| - 1];
      PackedGrows(before, n);
      assert before[..n] == cmds[..n];
    }
  }

  lemma TextsPrefix(a: seq<seq<string>>, b: seq<seq<string>>)
    requires a <= b
    ensures Texts(a) <= Texts(b)
  {}

  // ---- sending

  datatype Attempt = Attempt(payload: string, accepted: bool)

  /** HAProxy answers a refused command with its severity. */
  predicate Refused(result: string) {
    |result| > 5 && result[..4] in ["[3]:", "[2]:", "[1]:", "[0]:"]
  }

  lemma SeverityForm(head: string)
    requires |head| == 4
    ensures head in ["[3]:", "[2]:", "[1]:", "[0]:"] <==> head[0] == '[' && head[1] in "0123" && head[2] == ']' && head[3] == ':'
  {
    if head[0] == '[' && head[2] == ']' && head[3] == ':' {
      assert head == ['[', head[1], ']', ':'];
    }
  }

  /** Exactly a severity of 0 to 3 in brackets, a colon, and more than one character. */
  lemma RefusedForm(result: string)
    ensures Refused(result) <==> exists d: char, rest: string :: d in "0123" && |rest| >= 2 && result == ['[', d, ']', ':'] + rest
  {
    if Refused(result) {
      SeverityForm(result[..4]);
      var d, rest := result[1], result[4..];
      assert result == ['[', d, ']', ':'] + rest;
    }
    if d: char, rest: string :| d in "0123" && |rest| >= 2 && result == ['[', d, ']', ':'] + rest {
      var head := ['[', d, ']', ':'];
      assert result[..4] == head;
      SeverityForm(head);
    }
  }

  class RawSocket {
    ghost var attempts: seq<Attempt>
    /** What became of the last payload. */
    ghost var answer: Option<string>

    /** The socket: it may fail, and it may answer anything. */
    method ExecuteRaw(payload: string) returns (ok: bool, result: string)
      modifies this
      ensures attempts == old(attempts) + [Attempt(payload, ok && !Refused(result))]
      ensures answer == if ok then Some(result) else None
    {
      ok, result := *, *;
      answer := if ok then Some(result) else None;
      attempts := attempts + [Attempt(payload, ok && !Refused(result))];
    }

    method RunRaw(payload: string) returns (ok: bool)
      modifies this
      ensures attempts == old(attempts) + [Attempt(payload, ok)]
      ensures ok <==> answer.Some? && !Refused(answer.value)
    {
      var sent, result := ExecuteRaw(payload);
      if !sent {
        return false;
      }
      if |result| > 5 {
        if result[..4] == "[3]:" || result[..4] == "[2]:" || result[..4] == "[1]:" || result[..4] == "[0]:" {
          return false;
        }
      }
      return true;
    }
  }

  ghost function Accepted(payloads: seq<string>): seq<Attempt> {
    seq(|payloads|, i requires 0 <= i < |payloads| => Attempt(payloads[i], true))
  }

  /** The payloads up to the first that is not accepted, or all of them. */
  ghost predicate SentUpToFailure(log: seq<Attempt>, payloads: seq<string>, ok: bool) {
    if ok then log == Accepted(payloads)
    else 0 < |log| <= |payloads| && log == Accepted(payloads[..|log| - 1]) + [Attempt(payloads[|log| - 1], false)]
  }

  /** The log once the closed groups of a packing were sent. */
  ghost function SentSoFar(p: Packing): seq<Attempt> {
    Accepted(Texts(p.sent))
  }

  method RuntimeSetServerAddrAndState(client: RawSocket, servers: seq<ServerState>) returns (ok: bool)
    modifies client
    ensures old(client.attempts) <= client.attempts
    ensures SentUpToFailure(client.attempts[|old(client.attempts)|..], Payloads(Commands(servers)), ok)
  {
    hide Concat, Packed, Add, SentSoFar, Payloads, Command, SentUpToFailure;
    ghost var cmds := Commands(servers);
    ghost var start := client.attempts;
    NothingPacked();
    if |servers| == 0 {
      assert cmds == [];
      AllSent(cmds);
      assert client.attempts[|start|..] == SentSoFar(Packed(cmds)) + [];
      return true;
    }
    var sb := "";
    for i := 0 to |servers|
      invariant client.attempts == start + SentSoFar(Packed(cmds[..i]))
      invariant sb == Concat(Packed(cmds[..i]).pending)
    {
      var cmd := Command(servers[i]);
      PackedStep(cmds, i);
      if |sb| + |cmd| >= BUFFER_SIZE {
        var sent := client.RunRaw(sb);
        if !sent {
          FailedAt(cmds, i);
          assert client.attempts[|start|..] == SentSoFar(Packed(cmds[..i])) + [Attempt(sb, false)];
          return false;
        }
        sb := "";
      }
      sb := sb + cmd;
    }
    assert cmds[..|servers|] == cmds;
    AllSent(cmds);
    if |sb| > 0 {
      var sent := client.RunRaw(sb);
      if !sent {
        LastFailed(cmds);
        assert client.attempts[|start|..] == SentSoFar(Packed(cmds)) + [Attempt(sb, false)];
        return false;
      }
    }
    assert client.attempts[|start|..] == SentSoFar(Packed(cmds)) + if sb == "" then [] else [Attempt(sb, true)];
    return true;
  }

  lemma NothingPacked()
    ensures Packed([]) == Packing([], []) && Concat([]) == "" && SentSoFar(Packed([])) == []
  {}

  lemma OneMoreSent(p: Packing)
    ensures Accepted(Texts(p.sent + [p.pending])) == SentSoFar(p) + [Attempt(Concat(p.pending), true)]
  {
    hide Concat;
    assert Texts(p.sent + [p.pending]) == Texts(p.sent) + [Concat(p.pending)];
  }

  /** What one more command does to the log and to the payload under way. */
  lemma PackedStep(cmds: seq<string>, i: nat)
    requires i < |cmds|
    ensures var p, q, c := Packed(cmds[..i]), Packed(cmds[..i + 1]), cmds[i];
            if |Concat(p.pending)| + |c| >= BUFFER_SIZE
            then Concat(q.pending) == c && SentSoFar(q) == SentSoFar(p) + [Attempt(Concat(p.pending), true)]
            else Concat(q.pending) == Concat(p.pending) + c && SentSoFar(q) == SentSoFar(p)
  {
    hide Concat, Packed, Texts, Accepted;
    var p := Packed(cmds[..i]);
    assert cmds[..i + 1] == cmds[..i] + [cmds[i]];
    PackedSnoc(cmds[..i], cmds[i]);
    ConcatSnoc(p.pending, cmds[i]);
    ConcatOne(cmds[i]);
    OneMoreSent(p);
  }

  lemma AllSent(cmds: seq<string>)
    ensures var p := Packed(cmds);
            var log := SentSoFar(p) + if Concat(p.pending) == "" then [] else [Attempt(Concat(p.pending), true)];
            SentUpToFailure(log, Payloads(cmds), true)
  {
    hide Concat, Packed, Texts, Accepted;
    OneMoreSent(Packed(cmds));
  }

  lemma FailedAfter(cmds: seq<string>, p: Packing)
    requires p.sent + [p.pending] <= GroupsOf(cmds)
    ensures SentUpToFailure(SentSoFar(p) + [Attempt(Concat(p.pending), false)], Payloads(cmds), false)
  {
    hide Concat, GroupsOf;
    TextsPrefix(p.sent + [p.pending], GroupsOf(cmds));
    assert Texts(p.sent + [p.pending]) == Texts(p.sent) + [Concat(p.pending)];
    assert Payloads(cmds)[..|p.sent|] == Texts(p.sent);
  }

  lemma FailedAt(cmds: seq<string>, i: nat)
    requires i < |cmds| && |Concat(Packed(cmds[..i]).pending)| + |cmds[i]| >= BUFFER_SIZE
    ensures SentUpToFailure(SentSoFar(Packed(cmds[..i])) + [Attempt(Concat(Packed(cmds[..i]).pending), false)], Payloads(cmds), false)
  {
    hide Concat, Packed, SentSoFar, SentUpToFailure, Payloads;
    var p := Packed(cmds[..i]);
    assert cmds[..i + 1] == cmds[..i] + [cmds[i]];
    PackedSnoc(cmds[..i], cmds[i]);
    PackedGrows(cmds, i + 1);
    FailedAfter(cmds, p);
  }

  lemma LastFailed(cmds: seq<string>)
    requires Concat(Packed(cmds).pending) != ""
    ensures SentUpToFailure(SentSoFar(Packed(cmds)) + [Attempt(Concat(Packed(cmds).pending), false)], Payloads(cmds), false)
  {
    hide Concat, Packed, SentSoFar, SentUpToFailure, Payloads;
    FailedAfter(cmds, Packed(cmds));
  }

  /** Whatever fails, the commands in the payloads tried are a prefix of all commands. */
  lemma TriedIsPrefix(servers: seq<ServerState>, log: seq<Attempt>, ok: bool)
    requires SentUpToFailure(log, Payloads(Commands(servers)), ok)
    ensures Flatten(GroupsOf(Commands(servers))[..|log|]) <= Commands(servers)
    ensures forall i :: 0 <= i < |log| ==> log[i].payload == Concat(GroupsOf(Commands(servers))[i])
    ensures ok ==> Flatten(GroupsOf(Commands(servers))[..|log|]) == Commands(servers)
  {
    hide Command, GroupsOf, Concat, Flatten;
    var groups := GroupsOf(Commands(servers));
    CommandsNonEmpty(servers);
    GroupsKeepAll(Commands(servers));
    FlattenPrefix(groups, |log|);
    if ok { assert groups[..|log|] == groups; }
  }

  lemma {:induction false} FlattenPrefix(groups: seq<seq<string>>, n: nat)
    requires n <= |groups|
    ensures Flatten(groups[..n]) <= Flatten(groups)
    decreases |groups|
  {
    if n == |groups| {
      assert groups[..n] == groups;
    } else {
      var before := groups[..|groups| - 1];
      FlattenPrefix(before, n);
      assert before[..n] == groups[..n];
    }
  }
}
