/** Reading and writing /etc/hosts and /etc/resolv.conf. */
module HostConfig {
  import opened Wrappers
  import opened Strings
  import opened Words

  datatype HostEntry = HostEntry(ip: string, hostnames: seq<string>)

  datatype ResolvConf = ResolvConf(
    nameservers: seq<string>, searchDomains: seq<string>, domain: Option<string>, options: seq<string>)

  // ---- /etc/hosts ----

  const HOSTS_HEADER := [
    "# /etc/hosts - managed by zoneweaver-agent",
    "#",
    "# IP Address    Hostnames",
    ""]

  /** What one line contributes: an address and its names, or nothing. */
  function HostLine(line: string): seq<HostEntry> {
    var trimmed := Trim(line);
    if trimmed == "" || StartsWith(trimmed, "#") then []
    else
      var parts := Fields(trimmed);
      if |parts| >= 2 then [HostEntry(parts[0], parts[1..])] else []
  }

  /** A reading of lines, and a way to write an entry: what holds of all of them is shown once. */
  type HostReader = string -> seq<HostEntry>
  type HostWriter = HostEntry -> string

  function HostLines(read: HostReader, lines: seq<string>): seq<HostEntry> {
    if |lines| == 0 then [] else HostLines(read, Init(lines)) + read(Last(lines))
  }

  function ParseHosts(content: string): seq<HostEntry> {
    HostLines(HostLine, Split(content, '\n'))
  }

  method ParseHostsFile(content: string) returns (entries: seq<HostEntry>)
    ensures entries == ParseHosts(content)
  {
    entries := [];
    var lines := Split(content, '\n');
    for i := 0 to |lines|
      invariant entries == HostLines(HostLine, lines[..i])
    {
      assert Init(lines[..i + 1]) == lines[..i];
      var trimmed := Trim(lines[i]);
      if trimmed == "" || StartsWith(trimmed, "#") {
        continue;
      }
      var parts := Fields(trimmed);
      if |parts| >= 2 {
        entries := entries + [HostEntry(parts[0], parts[1..])];
      }
    }
    assert lines[..|lines|] == lines;
  }

  function EntryLine(entry: HostEntry): string {
    entry.ip + "\t" + Join(entry.hostnames, "\t")
  }

  function EntryLines(write: HostWriter, entries: seq<HostEntry>): seq<string> {
    if |entries| == 0 then [] else EntryLines(write, Init(entries)) + [write(Last(entries))]
  }

  function SerializeHosts(entries: seq<HostEntry>): string {
    Join(HOSTS_HEADER + EntryLines(EntryLine, entries) + [""], "\n")
  }

  method SerializeHostsFile(entries: seq<HostEntry>) returns (content: string)
    ensures content == SerializeHosts(entries)
  {
    var lines := HOSTS_HEADER;
    for i := 0 to |entries|
      invariant lines == HOSTS_HEADER + EntryLines(EntryLine, entries[..i])
    {
      assert Init(entries[..i + 1]) == entries[..i];
      lines := lines + [entries[i].ip + "\t" + Join(entries[i].hostnames, "\t")];
    }
    assert entries[..|entries|] == entries;
    content := Join(lines + [""], "\n");
  }

  /** The structures a hosts file can express: words all through, and no address that reads as a comment. */
  predicate WellFormedEntry(entry: HostEntry) {
    && IsWord(entry.ip) && entry.ip[0] != '#'
    && |entry.hostnames| > 0 && AllWords(entry.hostnames)
  }

  predicate WellFormedHosts(entries: seq<HostEntry>) {
    forall i :: 0 <= i < |entries| ==> WellFormedEntry(entries[i])
  }

  lemma HostLineWellFormed(line: string)
    ensures WellFormedHosts(HostLine(line))
  {
    var trimmed := Trim(line);
    if HostLine(line) != [] {
      FieldsAreWords(trimmed);
      FirstOfFirstField(trimmed);
      var parts := Fields(trimmed);
      assert parts[0] in parts;
      assert !StartsWith(trimmed, "#");
      assert trimmed[0] == '#' ==> "#" <= trimmed;
    }
  }

  lemma FirstOfFirstField(s: string)
    requires s != "" && !IsSpace(s[0])
    ensures Fields(s)[0] != "" && Fields(s)[0][0] == s[0]
  {
  }

  lemma {:induction false} HostLinesWellFormed(lines: seq<string>)
    ensures WellFormedHosts(HostLines(HostLine, lines))
  {
    if |lines| > 0 {
      HostLinesWellFormed(Init(lines));
      HostLineWellFormed(Last(lines));
    }
  }

  lemma EntryLineParses(entry: HostEntry)
    requires WellFormedEntry(entry)
    ensures HostLine(EntryLine(entry)) == [entry] && '\n' !in EntryLine(entry)
  {
    var ws := [entry.ip] + entry.hostnames;
    assert AllWords(ws);
    assert ws[1..] == entry.hostnames;
    assert EntryLine(entry) == Join(ws, "\t");
    LineOfWords(ws, '\t');
  }

  lemma {:induction false} HostLinesAppend(read: HostReader, a: seq<string>, b: seq<string>)
    ensures HostLines(read, a + b) == HostLines(read, a) + HostLines(read, b)
  {
    if |b| == 0 {
      assert a + b == a && HostLines(read, a) + [] == HostLines(read, a);
    } else {
      HostLinesAppend(read, a, Init(b));
      assert Init(a + b) == a + Init(b) && Last(a + b) == Last(b);
      ConcatAssociates(HostLines(read, a), HostLines(read, Init(b)), read(Last(b)));
    }
  }

  lemma {:induction false} EntriesReadBack(read: HostReader, write: HostWriter, entries: seq<HostEntry>)
    requires forall i :: 0 <= i < |entries| ==> read(write(entries[i])) == [entries[i]] && '\n' !in write(entries[i])
    ensures HostLines(read, EntryLines(write, entries)) == entries
    ensures forall line :: line in EntryLines(write, entries) ==> '\n' !in line
  {
    if |entries| > 0 {
      var before := EntryLines(write, Init(entries));
      EntriesReadBack(read, write, Init(entries));
      assert Init(before + [write(Last(entries))]) == before;
      assert entries == Init(entries) + [Last(entries)];
    }
  }

  lemma EntryLinesParse(entries: seq<HostEntry>)
    requires WellFormedHosts(entries)
    ensures HostLines(HostLine, EntryLines(EntryLine, entries)) == entries
    ensures forall line :: line in EntryLines(EntryLine, entries) ==> '\n' !in line
  {
    forall i | 0 <= i < |entries|
      ensures HostLine(EntryLine(entries[i])) == [entries[i]] && '\n' !in EntryLine(entries[i])
    {
      EntryLineParses(entries[i]);
    }
    EntriesReadBack(HostLine, EntryLine, entries);
  }

  lemma {:induction false} SilentLines(read: HostReader, lines: seq<string>)
    requires forall i :: 0 <= i < |lines| ==> read(lines[i]) == []
    ensures HostLines(read, lines) == []
  {
    if |lines| > 0 {
      SilentLines(read, Init(lines));
    }
  }

  lemma CommentIsSilent(line: string)
    requires line != "" && line[0] == '#'
    ensures HostLine(line) == []
  {
    assert TrimStart(line) == line;
    TrimEndKeepsFirst(line);
    assert Trim(line)[0] == '#';
    assert "#" <= Trim(line);
  }

  lemma {:induction false} TrimEndKeepsFirst(s: string)
    requires s != "" && !IsSpace(s[0])
    ensures TrimEnd(s) != "" && TrimEnd(s)[0] == s[0]
  {
    if IsSpace(Last(s)) {
      TrimEndKeepsFirst(Init(s));
    }
  }

  lemma HeaderIsSilent()
    ensures HostLines(HostLine, HOSTS_HEADER) == []
  {
    var h := HOSTS_HEADER;
    forall i | 0 <= i < |h| ensures HostLine(h[i]) == [] {
      if i < 3 {
        assert h[i] != "" && h[i][0] == '#';
        CommentIsSilent(h[i]);
      } else {
        assert h[i] == "";
      }
    }
    SilentLines(HostLine, h);
  }

  lemma HeaderIsOneLineEach()
    ensures forall line :: line in HOSTS_HEADER ==> '\n' !in line
  {
  }

  lemma EmptyLineIsSilent(lines: seq<string>)
    ensures HostLines(HostLine, lines + [""]) == HostLines(HostLine, lines)
  {
    assert Init(lines + [""]) == lines;
  }

  /** Reading back what was written gives the same entries exactly when they are well-formed. */
  lemma HostsRoundTrip(entries: seq<HostEntry>)
    ensures ParseHosts(SerializeHosts(entries)) == entries <==> WellFormedHosts(entries)
  {
    HostLinesWellFormed(Split(SerializeHosts(entries), '\n'));
    if WellFormedHosts(entries) {
      var body := EntryLines(EntryLine, entries);
      EntryLinesParse(entries);
      HeaderIsSilent();
      HeaderIsOneLineEach();
      SplitJoin(HOSTS_HEADER + body + [""], '\n');
      HostLinesAppend(HostLine, HOSTS_HEADER, body);
      EmptyLineIsSilent(HOSTS_HEADER + body);
    }
  }

  /** Rewriting any hosts file keeps what was read from it. */
  lemma HostsRewriteIsStable(content: string)
    ensures ParseHosts(SerializeHosts(ParseHosts(content))) == ParseHosts(content)
  {
    HostLinesWellFormed(Split(content, '\n'));
    HostsRoundTrip(ParseHosts(content));
  }

  /** A line of words, however parted and indented. */
  function LineOf(lead: string, ws: seq<string>, gaps: seq<string>, trail: string): string
    requires |ws| == |gaps| + 1
  {
    lead + (Spread(ws, gaps) + trail)
  }

  predicate IsLineOf(lead: string, ws: seq<string>, gaps: seq<string>, trail: string) {
    |ws| == |gaps| + 1 && AllWords(ws) && AreGaps(gaps) && AllSpace(lead) && AllSpace(trail)
  }

  lemma WordsOfLine(lead: string, ws: seq<string>, gaps: seq<string>, trail: string)
    requires IsLineOf(lead, ws, gaps, trail)
    ensures var line := Trim(LineOf(lead, ws, gaps, trail));
      line != "" && ws[0] != "" && line[0] == ws[0][0] && Fields(line) == ws
  {
    SpreadEnds(ws, gaps);
    TrimOfGaps(lead, Spread(ws, gaps), trail);
    FieldsOfSpread(ws, gaps);
  }

  lemma FirstCharacter(s: string, c: char)
    ensures [c] <= s <==> s != "" && s[0] == c
  {
  }

  /**
   Any line of words gives an entry exactly when it has two of them or more and does not begin a comment: the first is
   the address, the others are the names. White space gives nothing.
   */
  lemma HostLineMeans(lead: string, ws: seq<string>, gaps: seq<string>, trail: string)
    requires IsLineOf(lead, ws, gaps, trail)
    ensures HostLine(LineOf(lead, ws, gaps, trail)) ==
      if |ws| >= 2 && ws[0] != "" && ws[0][0] != '#' then [HostEntry(ws[0], ws[1..])] else []
    ensures HostLine(lead) == []
  {
    WordsOfLine(lead, ws, gaps, trail);
    FirstCharacter(Trim(LineOf(lead, ws, gaps, trail)), '#');
    TrimOfSpace(lead);
  }

  // ---- /etc/resolv.conf ----

  const EMPTY_CONF := ResolvConf([], [], None, [])
  const RESOLV_HEADER := "# /etc/resolv.conf - " + "managed by zoneweaver-agent"

  /** One directive, from its words. */
  function Directive(parts: seq<string>, conf: ResolvConf): ResolvConf
    requires |parts| > 0
  {
    var rest := parts[1..];
    if parts[0] == "nameserver" && |rest| > 0 && rest[0] != "" then conf.(nameservers := conf.nameservers + [rest[0]])
    else if parts[0] == "search" then conf.(searchDomains := conf.searchDomains + rest)
    else if parts[0] == "domain" && |rest| > 0 && rest[0] != "" then conf.(domain := Some(rest[0]))
    else if parts[0] == "options" then conf.(options := conf.options + rest)
    else conf
  }

  function ResolvLine(line: string, conf: ResolvConf): ResolvConf {
    var trimmed := Trim(line);
    if trimmed == "" || StartsWith(trimmed, "#") || StartsWith(trimmed, ";") then conf
    else Directive(Fields(trimmed), conf)
  }

  type ResolvReader = (string, ResolvConf) -> ResolvConf

  function ResolvLines(read: ResolvReader, lines: seq<string>, conf: ResolvConf): ResolvConf {
    if |lines| == 0 then conf else read(Last(lines), ResolvLines(read, Init(lines), conf))
  }

  function ParseResolv(content: string): ResolvConf {
    ResolvLines(ResolvLine, Split(content, '\n'), EMPTY_CONF)
  }

  method ParseResolvConf(content: string) returns (conf: ResolvConf)
    ensures conf == ParseResolv(content)
  {
    var nameservers, searchDomains, options: seq<string> := [], [], [];
    var domain := None;
    var lines := Split(content, '\n');
    for i := 0 to |lines|
      invariant ResolvConf(nameservers, searchDomains, domain, options) ==
        ResolvLines(ResolvLine, lines[..i], EMPTY_CONF)
    {
      assert Init(lines[..i + 1]) == lines[..i];
      var trimmed := Trim(lines[i]);
      if trimmed == "" || StartsWith(trimmed, "#") || StartsWith(trimmed, ";") {
        continue;
      }
      var parts := Fields(trimmed);
      var directive, rest := parts[0], parts[1..];
      if directive == "nameserver" && |rest| > 0 && rest[0] != "" {
        nameservers := nameservers + [rest[0]];
      } else if directive == "search" {
        searchDomains := searchDomains + rest;
      } else if directive == "domain" && |rest| > 0 && rest[0] != "" {
        domain := Some(rest[0]);
      } else if directive == "options" {
        options := options + rest;
      }
    }
    assert lines[..|lines|] == lines;
    conf := ResolvConf(nameservers, searchDomains, domain, options);
  }

  function DomainLines(conf: ResolvConf): seq<string> {
    if conf.domain.Some? && conf.domain.value != "" then ["domain " + conf.domain.value] else []
  }

  function SearchLines(conf: ResolvConf): seq<string> {
    if |conf.searchDomains| > 0 then ["search " + Join(conf.searchDomains, " ")] else []
  }

  function ServerLines(servers: seq<string>): seq<string> {
    if |servers| == 0 then [] else ServerLines(Init(servers)) + [ServerLine(Last(servers))]
  }

  function ServerLine(server: string): string {
    "nameserver " + server
  }

  function OptionLines(conf: ResolvConf): seq<string> {
    if |conf.options| > 0 then ["options " + Join(conf.options, " ")] else []
  }

  function ResolvBody(conf: ResolvConf): seq<string> {
    DomainLines(conf) + SearchLines(conf) + ServerLines(conf.nameservers) + OptionLines(conf)
  }

  function SerializeResolv(conf: ResolvConf): string {
    Join([RESOLV_HEADER, ""] + ResolvBody(conf) + [""], "\n")
  }

  method SerializeResolvConf(conf: ResolvConf) returns (content: string)
    ensures content == SerializeResolv(conf)
  {
    var lines := [RESOLV_HEADER, ""];
    ghost var header := lines;
    if conf.domain.Some? && conf.domain.value != "" {
      lines := lines + ["domain " + conf.domain.value];
    }
    assert lines == header + DomainLines(conf);
    if |conf.searchDomains| > 0 {
      lines := lines + ["search " + Join(conf.searchDomains, " ")];
    }
    ghost var before := header + DomainLines(conf) + SearchLines(conf);
    assert lines == before;
    for i := 0 to |conf.nameservers|
      invariant lines == before + ServerLines(conf.nameservers[..i])
    {
      ServerLinesNext(conf.nameservers, i);
      lines := lines + ["nameserver " + conf.nameservers[i]];
    }
    assert conf.nameservers[..|conf.nameservers|] == conf.nameservers;
    if |conf.options| > 0 {
      lines := lines + ["options " + Join(conf.options, " ")];
    }
    assert lines == before + ServerLines(conf.nameservers) + OptionLines(conf);
    Assembled(header, DomainLines(conf), SearchLines(conf), ServerLines(conf.nameservers), OptionLines(conf));
    content := Join(lines + [""], "\n");
  }

  lemma ServerLinesNext(servers: seq<string>, i: nat)
    requires i < |servers|
    ensures ServerLines(servers[..i + 1]) == ServerLines(servers[..i]) + ["nameserver " + servers[i]]
  {
    assert Init(servers[..i + 1]) == servers[..i];
  }

  lemma Assembled(h: seq<string>, d: seq<string>, s: seq<string>, n: seq<string>, o: seq<string>)
    ensures h + d + s + n + o == h + (d + s + n + o)
  {
  }

  predicate WellFormedConf(conf: ResolvConf) {
    && AllWords(conf.nameservers) && AllWords(conf.searchDomains) && AllWords(conf.options)
    && (conf.domain.Some? ==> IsWord(conf.domain.value))
  }

  lemma DirectiveWellFormed(parts: seq<string>, conf: ResolvConf)
    requires |parts| > 0 && AllWords(parts) && WellFormedConf(conf)
    ensures WellFormedConf(Directive(parts, conf))
  {
    assert forall w :: w in parts[1..] ==> w in parts;
    if |parts| > 1 {
      assert parts[1..][0] in parts;
    }
  }

  lemma {:induction false} ResolvLinesWellFormed(lines: seq<string>, conf: ResolvConf)
    requires WellFormedConf(conf)
    ensures WellFormedConf(ResolvLines(ResolvLine, lines, conf))
  {
    if |lines| > 0 {
      ResolvLinesWellFormed(Init(lines), conf);
      var trimmed := Trim(Last(lines));
      if trimmed != "" {
        FieldsAreWords(trimmed);
        DirectiveWellFormed(Fields(trimmed), ResolvLines(ResolvLine, Init(lines), conf));
      }
    }
  }

  lemma {:induction false} ResolvLinesAppend(read: ResolvReader, a: seq<string>, b: seq<string>, conf: ResolvConf)
    ensures ResolvLines(read, a + b, conf) == ResolvLines(read, b, ResolvLines(read, a, conf))
  {
    if |b| == 0 {
      assert a + b == a;
    } else {
      ResolvLinesAppend(read, a, Init(b), conf);
      assert Init(a + b) == a + Init(b);
    }
  }

  /** A written directive line reads back as its words. */
  lemma DirectiveLineParses(keyword: string, args: seq<string>, conf: ResolvConf)
    requires IsWord(keyword) && keyword[0] != '#' && keyword[0] != ';' && |args| > 0 && AllWords(args)
    ensures var line := keyword + " " + Join(args, " ");
      ResolvLine(line, conf) == Directive([keyword] + args, conf) && '\n' !in line
  {
    var ws := [keyword] + args;
    assert ws[1..] == args && AllWords(ws);
    LineOfWords(ws, ' ');
    var line := Join(ws, " ");
    assert line == keyword + " " + Join(args, " ");
    assert line[0] == keyword[0];
  }

  lemma KeywordsAreWords()
    ensures IsWord("nameserver") && IsWord("search") && IsWord("domain") && IsWord("options")
  {
  }

  lemma ServerLineParses(server: string, conf: ResolvConf)
    requires IsWord(server)
    ensures ResolvLine("nameserver " + server, conf) == conf.(nameservers := conf.nameservers + [server])
    ensures '\n' !in "nameserver " + server
  {
    KeywordsAreWords();
    DirectiveLineParses("nameserver", [server], conf);
    assert "nameserver" + " " + server == "nameserver " + server;
    assert (["nameserver"] + [server])[1..] == [server];
  }

  lemma LastLine(read: ResolvReader, lines: seq<string>, line: string, conf: ResolvConf)
    ensures ResolvLines(read, lines + [line], conf) == read(line, ResolvLines(read, lines, conf))
  {
    assert Init(lines + [line]) == lines;
  }

  lemma AddServer(lines: seq<string>, server: string, conf: ResolvConf)
    requires IsWord(server)
    ensures var before := ResolvLines(ResolvLine, lines, conf);
      ResolvLines(ResolvLine, lines + [ServerLine(server)], conf) ==
        before.(nameservers := before.nameservers + [server])
  {
    LastLine(ResolvLine, lines, ServerLine(server), conf);
    ServerLineParses(server, ResolvLines(ResolvLine, lines, conf));
  }

  lemma ServerLinesLast(servers: seq<string>)
    requires |servers| > 0
    ensures ServerLines(servers) == ServerLines(Init(servers)) + [ServerLine(Last(servers))]
  {
  }

  lemma {:induction false} ServerLinesAreLines(servers: seq<string>)
    requires AllWords(servers)
    ensures forall line :: line in ServerLines(servers) ==> '\n' !in line
  {
    if |servers| > 0 {
      InitOfWords(servers);
      ServerLinesAreLines(Init(servers));
      ServerLineParses(Last(servers), EMPTY_CONF);
    }
  }

  lemma InitOfWords(ws: seq<string>)
    requires |ws| > 0 && AllWords(ws)
    ensures AllWords(Init(ws)) && IsWord(Last(ws))
  {
    assert Last(ws) in ws && forall w :: w in Init(ws) ==> w in ws;
  }

  lemma {:induction false} ServersAddUp(servers: seq<string>, conf: ResolvConf)
    requires AllWords(servers)
    ensures ResolvLines(ResolvLine, ServerLines(servers), conf) == conf.(nameservers := conf.nameservers + servers)
  {
    if |servers| == 0 {
      assert conf.nameservers + servers == conf.nameservers;
    } else {
      InitOfWords(servers);
      ServersAddUp(Init(servers), conf);
      OneMoreServer(servers, conf);
    }
  }

  lemma OneMoreServer(servers: seq<string>, conf: ResolvConf)
    requires |servers| > 0 && IsWord(Last(servers))
    requires ResolvLines(ResolvLine, ServerLines(Init(servers)), conf) ==
      conf.(nameservers := conf.nameservers + Init(servers))
    ensures ResolvLines(ResolvLine, ServerLines(servers), conf) == conf.(nameservers := conf.nameservers + servers)
  {
    AddServer(ServerLines(Init(servers)), Last(servers), conf);
    ServerLinesLast(servers);
    AppendLast(conf.nameservers, servers);
  }

  lemma AppendLast(a: seq<string>, b: seq<string>)
    requires |b| > 0
    ensures (a + Init(b)) + [Last(b)] == a + b
  {
  }

  lemma ServerLinesParse(servers: seq<string>, conf: ResolvConf)
    requires AllWords(servers)
    ensures ResolvLines(ResolvLine, ServerLines(servers), conf) == conf.(nameservers := conf.nameservers + servers)
    ensures forall line :: line in ServerLines(servers) ==> '\n' !in line
  {
    ServersAddUp(servers, conf);
    ServerLinesAreLines(servers);
  }

  lemma OneLineParses(keyword: string, args: seq<string>, conf: ResolvConf)
    requires IsWord(keyword) && keyword[0] != '#' && keyword[0] != ';' && |args| > 0 && AllWords(args)
    ensures ResolvLines(ResolvLine, [keyword + " " + Join(args, " ")], conf) == Directive([keyword] + args, conf)
    ensures '\n' !in keyword + " " + Join(args, " ")
  {
    DirectiveLineParses(keyword, args, conf);
    var lines := [keyword + " " + Join(args, " ")];
    assert Init(lines) == [];
  }

  lemma DomainLineParses(d: string, conf: ResolvConf)
    requires IsWord(d)
    ensures ResolvLine("domain " + d, conf) == conf.(domain := Some(d))
    ensures '\n' !in "domain " + d
  {
    KeywordsAreWords();
    DirectiveLineParses("domain", [d], conf);
    assert "domain" + " " + d == "domain " + d;
    assert (["domain"] + [d])[1..] == [d];
  }

  lemma DomainParses(conf: ResolvConf, before: ResolvConf)
    requires WellFormedConf(conf) && before.domain == None
    ensures ResolvLines(ResolvLine, DomainLines(conf), before) == before.(domain := conf.domain)
    ensures forall line :: line in DomainLines(conf) ==> '\n' !in line
  {
    if conf.domain.Some? {
      var line := "domain " + conf.domain.value;
      DomainLineParses(conf.domain.value, before);
      assert Init([line]) == [] && DomainLines(conf) == [line];
    }
  }

  lemma SearchParses(conf: ResolvConf, before: ResolvConf)
    requires WellFormedConf(conf)
    ensures ResolvLines(ResolvLine, SearchLines(conf), before) ==
      before.(searchDomains := before.searchDomains + conf.searchDomains)
    ensures forall line :: line in SearchLines(conf) ==> '\n' !in line
  {
    KeywordsAreWords();
    if |conf.searchDomains| > 0 {
      OneLineParses("search", conf.searchDomains, before);
      assert "search" + " " == "search ";
      assert (["search"] + conf.searchDomains)[1..] == conf.searchDomains;
    }
  }

  lemma OptionsParse(conf: ResolvConf, before: ResolvConf)
    requires WellFormedConf(conf)
    ensures ResolvLines(ResolvLine, OptionLines(conf), before) == before.(options := before.options + conf.options)
    ensures forall line :: line in OptionLines(conf) ==> '\n' !in line
  {
    KeywordsAreWords();
    if |conf.options| > 0 {
      OneLineParses("options", conf.options, before);
      assert "options" + " " == "options ";
      assert (["options"] + conf.options)[1..] == conf.options;
    }
  }

  lemma BodyParses(conf: ResolvConf)
    requires WellFormedConf(conf)
    ensures ResolvLines(ResolvLine, ResolvBody(conf), EMPTY_CONF) == conf
    ensures forall line :: line in ResolvBody(conf) ==> '\n' !in line
  {
    var d, s, n, o := DomainLines(conf), SearchLines(conf), ServerLines(conf.nameservers), OptionLines(conf);
    var c1 := EMPTY_CONF.(domain := conf.domain);
    var c2 := c1.(searchDomains := conf.searchDomains);
    var c3 := c2.(nameservers := conf.nameservers);
    DomainParses(conf, EMPTY_CONF);
    SearchParses(conf, c1);
    ServerLinesParse(conf.nameservers, c2);
    OptionsParse(conf, c3);
    assert c1.searchDomains + conf.searchDomains == conf.searchDomains && c3.options + conf.options == conf.options;
    assert c2.nameservers + conf.nameservers == conf.nameservers;
    ResolvLinesAppend(ResolvLine, d, s, EMPTY_CONF);
    ResolvLinesAppend(ResolvLine, d + s, n, EMPTY_CONF);
    ResolvLinesAppend(ResolvLine, d + s + n, o, EMPTY_CONF);
  }

  lemma ResolvCommentIsSilent(line: string, conf: ResolvConf)
    requires line != "" && line[0] == '#'
    ensures ResolvLine(line, conf) == conf
  {
    assert TrimStart(line) == line;
    TrimEndKeepsFirst(line);
    assert "#" <= Trim(line);
  }

  lemma ResolvHeaderIsSilent()
    ensures ResolvLines(ResolvLine, [RESOLV_HEADER, ""], EMPTY_CONF) == EMPTY_CONF
    ensures '\n' !in RESOLV_HEADER
  {
    var h, a, b := RESOLV_HEADER, "# /etc/resolv.conf - ", "managed by zoneweaver-agent";
    assert h == a + b && a[0] == '#';
    assert '\n' !in a && '\n' !in b;
    ResolvCommentIsSilent(h, EMPTY_CONF);
    assert Init([h, ""]) == [h] && Init([h]) == [];
    assert ResolvLines(ResolvLine, [h], EMPTY_CONF) == EMPTY_CONF;
  }

  /** Reading back what was written gives the same configuration exactly when it is well-formed. */
  lemma ResolvRoundTrip(conf: ResolvConf)
    ensures ParseResolv(SerializeResolv(conf)) == conf <==> WellFormedConf(conf)
  {
    ResolvLinesWellFormed(Split(SerializeResolv(conf), '\n'), EMPTY_CONF);
    if WellFormedConf(conf) {
      var body := ResolvBody(conf);
      var lines := [RESOLV_HEADER, ""] + body + [""];
      BodyParses(conf);
      ResolvHeaderIsSilent();
      SplitJoin(lines, '\n');
      ResolvLinesAppend(ResolvLine, [RESOLV_HEADER, ""], body, EMPTY_CONF);
      assert Init(lines) == [RESOLV_HEADER, ""] + body;
    }
  }

  /** Rewriting any resolv.conf keeps what was read from it. */
  lemma ResolvRewriteIsStable(content: string)
    ensures ParseResolv(SerializeResolv(ParseResolv(content))) == ParseResolv(content)
  {
    ResolvLinesWellFormed(Split(content, '\n'), EMPTY_CONF);
    ResolvRoundTrip(ParseResolv(content));
  }

  /**
   Any line of words, read into a configuration: comments leave it as it is, and so does white space; a server adds its
   first argument only, a domain sets it, search and options add all of theirs; any other keyword is passed over.
   */
  lemma ResolvLineMeans(lead: string, ws: seq<string>, gaps: seq<string>, trail: string, conf: ResolvConf)
    requires IsLineOf(lead, ws, gaps, trail)
    ensures ResolvLine(LineOf(lead, ws, gaps, trail), conf) ==
      if ws[0] == "nameserver" && |ws| > 1 then conf.(nameservers := conf.nameservers + [ws[1]])
      else if ws[0] == "search" then conf.(searchDomains := conf.searchDomains + ws[1..])
      else if ws[0] == "domain" && |ws| > 1 then conf.(domain := Some(ws[1]))
      else if ws[0] == "options" then conf.(options := conf.options + ws[1..])
      else conf
    ensures ResolvLine(lead, conf) == conf
  {
    var line := LineOf(lead, ws, gaps, trail);
    WordsOfLine(lead, ws, gaps, trail);
    FirstCharacter(Trim(line), '#');
    FirstCharacter(Trim(line), ';');
    TrimOfSpace(lead);
    if ws[0][0] == '#' || ws[0][0] == ';' {
      CommentIsNoKeyword(ws[0]);
    }
    assert |ws| > 1 ==> ws[1] in ws;
  }

  lemma CommentIsNoKeyword(w: string)
    requires w != "" && (w[0] == '#' || w[0] == ';')
    ensures w != "nameserver" && w != "search" && w != "domain" && w != "options"
  {
  }
}
