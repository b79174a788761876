/** Surface migration and refresh of agent hosts
    (src/java_codebase_rag/installer.py, `run_update` up to the index step).

    Every file-system operation may fail, as decided by an arbitrary outcome for
    each tick of a counter.  JSON documents are finite maps; a key's own value is
    an opaque text. */
module HostUpdate {

  import opened Common

  type Path = seq<string>

  datatype Surface = Mcp | Cli
  datatype Scope = Project | User

  // ---- Hosts and their paths ----

  datatype Host = ClaudeCode | QwenCode | GigaCode {
    function DirName(): string {
      match this
      case ClaudeCode => ".claude"
      case QwenCode => ".qwen"
      case GigaCode => ".gigacode"
    }

    function McpConfig(scope: Scope): Path {
      match this
      case ClaudeCode => if scope == Project then [".mcp.json"] else [".claude.json"]
      case QwenCode => [".qwen", "settings.json"]
      case GigaCode => [".gigacode", "settings.json"]
    }
  }

  datatype Configured = Configured(host: Host, scope: Scope, surface: Surface)

  // Where the machine's two roots are.  They may coincide.
  datatype Roots = Roots(cwd: Path, home: Path) {
    function Root(scope: Scope): Path {
      if scope == Project then cwd else home
    }

    function Base(h: Host, scope: Scope): Path {
      Root(scope) + [h.DirName()]
    }

    function ConfigPath(h: Host, scope: Scope): Path {
      Root(scope) + h.McpConfig(scope)
    }
  }

  // ---- The manifest ----

  datatype File = McpSkill | McpAgent | CliSkill | CliAgent {
    function Relative(): Path {
      match this
      case McpSkill => ["skills", "explore-codebase", "SKILL.md"]
      case McpAgent => ["agents", "explorer-rag-enhanced.md"]
      case CliSkill => ["skills", "explore-codebase-cli", "SKILL.md"]
      case CliAgent => ["agents", "explorer-rag-cli.md"]
    }

    function Of(): Surface {
      if McpSkill? || McpAgent? then Mcp else Cli
    }
  }

  datatype Artifact = Entry | Shipped(file: File) {
    function Of(): Surface {
      if Entry? then Mcp else file.Of()
    }
  }

  function Manifest(s: Surface): seq<Artifact> {
    if s == Mcp then [Entry, Shipped(McpSkill), Shipped(McpAgent)] else [Shipped(CliSkill), Shipped(CliAgent)]
  }

  // Each list holds exactly the artifacts of its surface, each of them once.
  lemma ManifestExactly(s: Surface)
    ensures forall a: Artifact :: a in Manifest(s) <==> a.Of() == s
    ensures forall i, j :: 0 <= i < j < |Manifest(s)| ==> Manifest(s)[i] != Manifest(s)[j]
  {
    var m := Manifest(s);
    forall a: Artifact ensures a in m <==> a.Of() == s {
      if s == Mcp {
        assert m[0] == Entry && m[1] == Shipped(McpSkill) && m[2] == Shipped(McpAgent);
      } else {
        assert m[0] == Shipped(CliSkill) && m[1] == Shipped(CliAgent);
      }
    }
  }

  // No two files of the manifest can share a path, wherever the roots are.
  lemma FilesApart(b: Path, f: File, c: Path, g: File)
    requires b + f.Relative() == c + g.Relative()
    ensures f == g
  {
    var p := b + f.Relative();
    var m, n := |f.Relative()|, |g.Relative()|;
    assert p[|p| - 1] == f.Relative()[m - 1] == g.Relative()[n - 1];
    assert p[|p| - 2] == f.Relative()[m - 2] == g.Relative()[n - 2];
  }

  const MARKER := ".java-codebase-rag.hosts"

  // Nor can a document or the marker be one of those files.
  lemma DocumentsApart(b: Path, f: File, root: Path, h: Host, scope: Scope)
    ensures b + f.Relative() != root + h.McpConfig(scope)
    ensures b + f.Relative() != root + [MARKER]
  {
    var p, q := b + f.Relative(), root + h.McpConfig(scope);
    assert p[|p| - 1] == f.Relative()[|f.Relative()| - 1];
    assert q[|q| - 1] == h.McpConfig(scope)[|h.McpConfig(scope)| - 1];
    assert (root + [MARKER])[|root|] == MARKER;
  }

  // Different hosts share no place within a scope; project places lie under the
  // project, user places under the home directory.
  lemma HostsApart(r: Roots, h: Host, k: Host, scope: Scope)
    ensures h != k ==> r.Base(h, scope) != r.Base(k, scope) && r.ConfigPath(h, scope) != r.ConfigPath(k, scope)
    ensures r.cwd < r.Base(h, Project) && r.cwd < r.ConfigPath(h, Project)
    ensures r.home < r.Base(h, User) && r.home < r.ConfigPath(h, User)
  {
    var n := |r.Root(scope)|;
    assert r.Base(h, scope)[n] == h.DirName() && r.Base(k, scope)[n] == k.DirName();
    assert r.ConfigPath(h, scope)[n] == h.McpConfig(scope)[0] && r.ConfigPath(k, scope)[n] == k.McpConfig(scope)[0];
  }

  // ---- Configuration files ----

  datatype Value = Stdio(command: string) | Foreign(text: string)

  const SERVER := "java-codebase-rag"

  // `mcpServers`: missing, a table, or some other JSON value.
  datatype Servers = Absent | Table(table: map<string, Value>) | NotTable(text: string)

  // Not JSON; decodable as something that is no object, or not decodable at all;
  // or an object.
  datatype Config = Garbled(text: string) | NotObject(text: string) | Object(servers: Servers, others: map<string, Value>)

  predicate Usable(c: Option<Config>) {
    c.None? || (c.value.Object? && !c.value.servers.NotTable?)
  }

  predicate HasEntry(c: Option<Config>, command: string) {
    c.Some? && c.value.Object? && c.value.servers.Table? && SERVER in c.value.servers.table
    && c.value.servers.table[SERVER] == Stdio(command)
  }

  predicate NoEntry(c: Option<Config>) {
    c.Some? && c.value.Object? && c.value.servers.Table? ==> SERVER !in c.value.servers.table
  }

  function ServerTable(c: Option<Config>): map<string, Value> {
    if c.Some? && c.value.Object? && c.value.servers.Table? then c.value.servers.table else map[]
  }

  function WithEntry(c: Option<Config>, command: string): Config
    requires Usable(c)
  {
    Object(Table(ServerTable(c)[SERVER := Stdio(command)]), if c.Some? then c.value.others else map[])
  }

  function WithoutEntry(c: Config): Config
    requires c.Object?
  {
    var rest := ServerTable(Some(c)) - {SERVER};
    Object(if rest == map[] then Absent else Table(rest), c.others)
  }

  function ForeignServers(s: Servers): map<string, Value> {
    if s.Table? then s.table - {SERVER} else map[]
  }

  // Nothing of the user's is touched: other keys, other servers, documents of an
  // unexpected shape.  Only an emptied server table may disappear, and a new
  // file holds nothing but our entry.
  ghost predicate Kept(a: Option<Config>, b: Option<Config>) {
    match a
    case None =>
      b.None? || (b.value.Object? && !b.value.servers.NotTable? && b.value.others == map[] && ForeignServers(b.value.servers) == map[])
    case Some(Object(s, o)) =>
      b.Some? && b.value.Object? && b.value.others == o &&
      (if s.NotTable? then b.value.servers == s
       else !b.value.servers.NotTable? && ForeignServers(b.value.servers) == ForeignServers(s))
    case Some(_) => b == a
  }

  function At<V>(m: map<Path, V>, p: Path): Option<V> {
    if p in m then Some(m[p]) else None
  }

  lemma WithEntryKeeps(c: Option<Config>, command: string)
    requires Usable(c)
    ensures Kept(c, Some(WithEntry(c, command))) && HasEntry(Some(WithEntry(c, command)), command)
  {
    assert ForeignServers(WithEntry(c, command).servers) == ServerTable(c) - {SERVER};
  }

  lemma WithoutEntryKeeps(c: Config)
    requires c.Object? && c.servers.Table? && SERVER in c.servers.table
    ensures Kept(Some(c), Some(WithoutEntry(c))) && NoEntry(Some(WithoutEntry(c)))
    ensures WithoutEntry(c).servers.Absent? <==> c.servers.table.Keys == {SERVER}
  {
    var rest := c.servers.table - {SERVER};
    assert rest == map[] <==> rest.Keys == {};
    assert rest.Keys == c.servers.table.Keys - {SERVER};
    assert ForeignServers(WithoutEntry(c).servers) == ForeignServers(c.servers);
  }

  // ---- The outside world ----

  // How an operation on one artifact goes: as intended; refused before anything
  // is written; or failing in the write, which may leave some text behind.
  datatype Io = Works | Refused | Torn(leftover: Option<string>)

  datatype World = World(roots: Roots, onPath: Surface -> Option<string>, interactive: bool, asked: Surface -> Option<string>,
                         package: File -> string, io: nat -> Io)
  {
    // The binary for a migration; `None` when resolving it exits.
    function DeployCommand(s: Surface): Option<string> {
      if onPath(s).Some? then onPath(s) else if interactive then asked(s) else None
    }

    // The command a current MCP entry holds.
    function Command(): string {
      if DeployCommand(Mcp).Some? then DeployCommand(Mcp).value else ""
    }
  }

  datatype Disk = Disk(files: map<Path, string>, configs: map<Path, Config>, marker: Option<seq<Configured>>, tick: nat) {
    // The same files, configurations and marker; the clock may differ.
    ghost predicate Same(e: Disk) {
      files == e.files && configs == e.configs && marker == e.marker
    }
  }

  datatype End = Succeeded | Failed | Crashed

  datatype Step = Step(disk: Disk, end: End)

  // ---- One artifact ----

  function PutEntry(w: World, d: Disk, p: Path, command: string, force: bool, dry: bool): Step {
    var io, c, e := w.io(d.tick), At(d.configs, p), d.(tick := d.tick + 1);
    if io.Refused? || !Usable(c) then Step(e, Failed)
    else if dry || (HasEntry(c, command) && !force) then Step(e, Succeeded)
    else if io.Torn? then Step(e, Failed)
    else Step(e.(configs := d.configs[p := WithEntry(c, command)]), Succeeded)
  }

  function DropEntry(w: World, d: Disk, p: Path): Step {
    var io, c, e := w.io(d.tick), At(d.configs, p), d.(tick := d.tick + 1);
    if c.None? then Step(e, Succeeded)
    else if io.Refused? || c.value.Garbled? then Step(e, Failed)
    else if c.value.NotObject? then Step(e, Crashed)
    else if NoEntry(c) then Step(e, Succeeded)
    else if io.Torn? then Step(e, Failed)
    else Step(e.(configs := d.configs[p := WithoutEntry(c.value)]), Succeeded)
  }

  function WriteFile(io: Io, d: Disk, p: Path, text: string): Step {
    if io.Works? then Step(d.(files := d.files[p := text]), Succeeded)
    else Step(if io.Torn? && io.leftover.Some? then d.(files := d.files[p := io.leftover.value]) else d, Failed)
  }

  // Without a terminal, a deployment never overwrites a different file.
  function NewFile(w: World, d: Disk, p: Path, text: string): Step {
    var io, e := w.io(d.tick), d.(tick := d.tick + 1);
    if io.Refused? then Step(e, Failed)
    else if p in d.files then Step(e, if d.files[p] == text then Succeeded else Failed)
    else WriteFile(io, e, p, text)
  }

  function RefreshedFile(w: World, d: Disk, p: Path, text: string, force: bool, dry: bool): Step {
    var io, e := w.io(d.tick), d.(tick := d.tick + 1);
    if io.Refused? then Step(e, Failed)
    else if dry || (p in d.files && d.files[p] == text && !force) then Step(e, Succeeded)
    else WriteFile(io, e, p, text)
  }

  function DropFile(w: World, d: Disk, p: Path): Step {
    var io, e := w.io(d.tick), d.(tick := d.tick + 1);
    if p !in d.files then Step(e, Succeeded)
    else if !io.Works? then Step(e, Failed)
    else Step(e.(files := d.files - {p}), Succeeded)
  }

  datatype Action = Undeploy | Deploy(command: string) | Refresh(force: bool, dry: bool)

  function Act(w: World, d: Disk, h: Host, scope: Scope, a: Artifact, act: Action): Step {
    match a
    case Entry =>
      var p := w.roots.ConfigPath(h, scope);
      (match act
       case Undeploy => DropEntry(w, d, p)
       case Deploy(command) => PutEntry(w, d, p, command, false, false)
       case Refresh(force, dry) =>
         if w.onPath(Mcp).None? then Step(d.(tick := d.tick + 1), Failed)
         else PutEntry(w, d, p, w.onPath(Mcp).value, force, dry))
    case Shipped(f) =>
      var p := w.roots.Base(h, scope) + f.Relative();
      (match act
       case Undeploy => DropFile(w, d, p)
       case Deploy(_) => NewFile(w, d, p, w.package(f))
       case Refresh(force, dry) => RefreshedFile(w, d, p, w.package(f), force, dry))
  }

  // ---- All artifacts of a host, all hosts, the whole command ----

  datatype Run = Run(disk: Disk, results: seq<bool>, crashed: bool) {
    function After(earlier: seq<bool>): Run {
      this.(results := earlier + results)
    }

    ghost predicate AllSucceeded() {
      !crashed && forall i :: 0 <= i < |results| ==> results[i]
    }
  }

  function ActAll(w: World, d: Disk, h: Host, scope: Scope, artifacts: seq<Artifact>, act: Action): Run
    decreases |artifacts|
  {
    if artifacts == [] then Run(d, [], false)
    else
      var s := Act(w, d, h, scope, artifacts[0], act);
      if s.end.Crashed? then Run(s.disk, [], true)
      else ActAll(w, s.disk, h, scope, artifacts[1..], act).After([s.end.Succeeded?])
  }

  predicate Migrates(c: Configured, chosen: Option<Surface>) {
    chosen.Some? && c.surface != chosen.value
  }

  function Target(c: Configured, chosen: Option<Surface>): Configured {
    if Migrates(c, chosen) then c.(surface := chosen.value) else c
  }

  function Targets(hosts: seq<Configured>, chosen: Option<Surface>): seq<Configured> {
    seq(|hosts|, i requires 0 <= i < |hosts| => Target(hosts[i], chosen))
  }

  datatype Options = Options(force: bool, dry: bool, chosen: Option<Surface>)

  function UpdateHost(w: World, d: Disk, c: Configured, o: Options, command: string): Run {
    if Migrates(c, o.chosen) then
      if o.dry then Run(d, [], false)
      else
        var t := ActAll(w, d, c.host, c.scope, Manifest(c.surface), Undeploy);
        if t.crashed then t
        else ActAll(w, t.disk, c.host, c.scope, Manifest(o.chosen.value), Deploy(command)).After(t.results)
    else ActAll(w, d, c.host, c.scope, Manifest(c.surface), Refresh(o.force, o.dry))
  }

  function UpdateHosts(w: World, d: Disk, hosts: seq<Configured>, o: Options, command: string): Run
    decreases |hosts|
  {
    if hosts == [] then Run(d, [], false)
    else
      var r := UpdateHost(w, d, hosts[0], o, command);
      if r.crashed then r else UpdateHosts(w, r.disk, hosts[1..], o, command).After(r.results)
  }

  predicate AnyMigrates(hosts: seq<Configured>, chosen: Option<Surface>) {
    exists c :: c in hosts && Migrates(c, chosen)
  }

  // A lost marker write is only reported.
  function Remember(w: World, d: Disk, updated: seq<Configured>): Disk {
    d.(tick := d.tick + 1, marker := if w.io(d.tick).Works? then Some(updated) else d.marker)
  }

  datatype Outcome = NoHosts | NoBinary | Died | Finished(results: seq<bool>, updated: seq<Configured>)

  // The hosts to update: those the marker records, else what a scan for MCP
  // entries finds.
  function Detected(d: Disk, scan: seq<Configured>): seq<Configured> {
    if d.marker.Some? then d.marker.value else scan
  }

  function Update(w: World, d: Disk, o: Options, scan: seq<Configured>): (Disk, Outcome) {
    var hosts := Detected(d, scan);
    var migrated := AnyMigrates(hosts, o.chosen);
    if hosts == [] then (d, NoHosts)
    else if migrated && !o.dry && w.DeployCommand(o.chosen.value).None? then (d, NoBinary)
    else
      var r := UpdateHosts(w, d, hosts, o, Binary(w, hosts, o));
      var updated := Targets(hosts, o.chosen);
      if r.crashed then (r.disk, Died)
      else (if migrated && !o.dry then Remember(w, r.disk, updated) else r.disk, Finished(r.results, updated))
  }

  // The command resolved up front for migrations.
  function Binary(w: World, hosts: seq<Configured>, o: Options): string {
    if AnyMigrates(hosts, o.chosen) && !o.dry && w.DeployCommand(o.chosen.value).Some?
    then w.DeployCommand(o.chosen.value).value else ""
  }

  // ---- What every step leaves alone ----

  ghost predicate OwnFile(w: World, hosts: seq<Configured>, q: Path) {
    exists c, f: File :: c in hosts && q == w.roots.Base(c.host, c.scope) + f.Relative()
  }

  ghost predicate OwnConfig(w: World, hosts: seq<Configured>, q: Path) {
    exists c :: c in hosts && q == w.roots.ConfigPath(c.host, c.scope)
  }

  // Files change only where a detected host's artifacts live, documents only at
  // its configuration path, and there only our entry; the marker stays.
  ghost predicate Contained(w: World, hosts: seq<Configured>, d: Disk, e: Disk) {
    && (forall q :: At(d.files, q) == At(e.files, q) || OwnFile(w, hosts, q))
    && (forall q :: At(d.configs, q) == At(e.configs, q) || OwnConfig(w, hosts, q))
    && (forall q :: Kept(At(d.configs, q), At(e.configs, q)))
    && d.marker == e.marker
  }

  lemma ContainedTransitive(w: World, hosts: seq<Configured>, d: Disk, e: Disk, g: Disk)
    requires Contained(w, hosts, d, e) && Contained(w, hosts, e, g)
    ensures Contained(w, hosts, d, g)
  {
    forall q ensures Kept(At(d.configs, q), At(g.configs, q)) {
      assert Kept(At(d.configs, q), At(e.configs, q)) && Kept(At(e.configs, q), At(g.configs, q));
    }
  }

  // At most the document at `p` changed, and only our entry in it.
  ghost predicate EntryStep(d: Disk, e: Disk, p: Path) {
    d.files == e.files && d.marker == e.marker && Kept(At(d.configs, p), At(e.configs, p))
    && forall q :: q != p ==> At(d.configs, q) == At(e.configs, q)
  }

  lemma PutEntryStep(w: World, d: Disk, p: Path, command: string, force: bool, dry: bool)
    ensures EntryStep(d, PutEntry(w, d, p, command, force, dry).disk, p)
  {
    if Usable(At(d.configs, p)) {
      WithEntryKeeps(At(d.configs, p), command);
    }
  }

  lemma DropEntryStep(w: World, d: Disk, p: Path)
    ensures EntryStep(d, DropEntry(w, d, p).disk, p)
  {
    if !NoEntry(At(d.configs, p)) {
      WithoutEntryKeeps(d.configs[p]);
    }
  }

  lemma EntryStepContained(w: World, hosts: seq<Configured>, d: Disk, e: Disk, c: Configured)
    requires c in hosts && EntryStep(d, e, w.roots.ConfigPath(c.host, c.scope))
    ensures Contained(w, hosts, d, e)
  {
    assert OwnConfig(w, hosts, w.roots.ConfigPath(c.host, c.scope));
  }

  lemma FileStepContained(w: World, hosts: seq<Configured>, d: Disk, c: Configured, f: File, act: Action)
    requires c in hosts
    ensures Contained(w, hosts, d, Act(w, d, c.host, c.scope, Shipped(f), act).disk)
  {
    assert OwnFile(w, hosts, w.roots.Base(c.host, c.scope) + f.Relative());
  }

  lemma ActContained(w: World, hosts: seq<Configured>, d: Disk, c: Configured, a: Artifact, act: Action)
    requires c in hosts
    ensures Contained(w, hosts, d, Act(w, d, c.host, c.scope, a, act).disk)
  {
    hide PutEntry, DropEntry, Contained;
    if a.Entry? {
      var p := w.roots.ConfigPath(c.host, c.scope);
      match act {
        case Undeploy => DropEntryStep(w, d, p);
        case Deploy(command) => PutEntryStep(w, d, p, command, false, false);
        case Refresh(force, dry) =>
          if w.onPath(Mcp).Some? { PutEntryStep(w, d, p, w.onPath(Mcp).value, force, dry); }
      }
      EntryStepContained(w, hosts, d, Act(w, d, c.host, c.scope, a, act).disk, c);
    } else {
      FileStepContained(w, hosts, d, c, a.file, act);
    }
  }

  lemma {:induction false} ActAllContained(w: World, hosts: seq<Configured>, d: Disk, c: Configured, artifacts: seq<Artifact>, act: Action)
    requires c in hosts
    ensures Contained(w, hosts, d, ActAll(w, d, c.host, c.scope, artifacts, act).disk)
    decreases |artifacts|
  {
    hide Contained;
    if artifacts == [] {
      SameContained(w, hosts, d);
    } else {
      var s := Act(w, d, c.host, c.scope, artifacts[0], act);
      ActContained(w, hosts, d, c, artifacts[0], act);
      if !s.end.Crashed? {
        ActAllContained(w, hosts, s.disk, c, artifacts[1..], act);
        ContainedTransitive(w, hosts, d, s.disk, ActAll(w, s.disk, c.host, c.scope, artifacts[1..], act).disk);
      }
    }
  }

  lemma SameContained(w: World, hosts: seq<Configured>, d: Disk)
    ensures Contained(w, hosts, d, d)
  {
  }

  lemma UpdateHostContained(w: World, hosts: seq<Configured>, d: Disk, c: Configured, o: Options, command: string)
    requires c in hosts
    ensures Contained(w, hosts, d, UpdateHost(w, d, c, o, command).disk)
  {
    hide Contained, ActAll;
    if Migrates(c, o.chosen) {
      if o.dry {
        SameContained(w, hosts, d);
      } else {
        var t := ActAll(w, d, c.host, c.scope, Manifest(c.surface), Undeploy);
        ActAllContained(w, hosts, d, c, Manifest(c.surface), Undeploy);
        if !t.crashed {
          ActAllContained(w, hosts, t.disk, c, Manifest(o.chosen.value), Deploy(command));
          ContainedTransitive(w, hosts, d, t.disk, UpdateHost(w, d, c, o, command).disk);
        }
      }
    } else {
      ActAllContained(w, hosts, d, c, Manifest(c.surface), Refresh(o.force, o.dry));
    }
  }

  lemma {:induction false} UpdateHostsContained(w: World, all: seq<Configured>, d: Disk, hosts: seq<Configured>, o: Options, command: string)
    requires forall i :: 0 <= i < |hosts| ==> hosts[i] in all
    ensures Contained(w, all, d, UpdateHosts(w, d, hosts, o, command).disk)
    decreases |hosts|
  {
    hide Contained, UpdateHost;
    if hosts == [] {
      SameContained(w, all, d);
    } else {
      var r := UpdateHost(w, d, hosts[0], o, command);
      UpdateHostContained(w, all, d, hosts[0], o, command);
      if !r.crashed {
        UpdateHostsContained(w, all, r.disk, hosts[1..], o, command);
        ContainedTransitive(w, all, d, r.disk, UpdateHosts(w, r.disk, hosts[1..], o, command).disk);
      }
    }
  }

  // In every run, whatever fails: what is not ours is left alone, and only a
  // finished migration rewrites the marker.
  lemma EveryRunIsContained(w: World, d: Disk, o: Options, scan: seq<Configured>)
    ensures var (e, out) := Update(w, d, o, scan);
            && Contained(w, Detected(d, scan), d, e.(marker := d.marker))
            && (e.marker != d.marker ==> out.Finished? && !o.dry && e.marker == Some(out.updated))
  {
    hide Contained, UpdateHosts;
    var hosts := Detected(d, scan);
    SameContained(w, hosts, d);
    UpdateHostsContained(w, hosts, d, hosts, o, Binary(w, hosts, o));
    var r := UpdateHosts(w, d, hosts, o, Binary(w, hosts, o)).disk;
    var e := Update(w, d, o, scan).0;
    assert d.(marker := d.marker) == d;
    if Update(w, d, o, scan).1.Died? || Update(w, d, o, scan).1.Finished? {
      ContainedUpToClock(w, hosts, d, r, e.(marker := d.marker));
    }
  }

  lemma ContainedUpToClock(w: World, hosts: seq<Configured>, d: Disk, r: Disk, e: Disk)
    requires Contained(w, hosts, d, r) && e.files == r.files && e.configs == r.configs && e.marker == d.marker
    ensures Contained(w, hosts, d, e) && r.marker == d.marker
  {
  }

  // ---- A dry run ----

  lemma {:induction false} ActAllDry(w: World, d: Disk, h: Host, scope: Scope, artifacts: seq<Artifact>, force: bool)
    ensures var r := ActAll(w, d, h, scope, artifacts, Refresh(force, true)); d.Same(r.disk) && !r.crashed
    decreases |artifacts|
  {
    if artifacts != [] {
      var s := Act(w, d, h, scope, artifacts[0], Refresh(force, true));
      assert d.Same(s.disk) && !s.end.Crashed?;
      ActAllDry(w, s.disk, h, scope, artifacts[1..], force);
    }
  }

  lemma {:induction false} UpdateHostsDry(w: World, d: Disk, hosts: seq<Configured>, o: Options, command: string)
    requires o.dry
    ensures var r := UpdateHosts(w, d, hosts, o, command); d.Same(r.disk) && !r.crashed
    decreases |hosts|
  {
    hide ActAll;
    if hosts != [] {
      var c := hosts[0];
      ActAllDry(w, d, c.host, c.scope, Manifest(c.surface), o.force);
      UpdateHostsDry(w, UpdateHost(w, d, c, o, command).disk, hosts[1..], o, command);
    }
  }

  // A dry run changes nothing and cannot die.
  lemma DryRunChangesNothing(w: World, d: Disk, o: Options, scan: seq<Configured>)
    requires o.dry
    ensures var (e, out) := Update(w, d, o, scan); d.Same(e) && !out.Died? && !out.NoBinary?
  {
    UpdateHostsDry(w, d, Detected(d, scan), o, Binary(w, Detected(d, scan), o));
  }

  // ---- A run without failures ----

  // Is this artifact there, with current contents?
  ghost predicate Present(w: World, d: Disk, h: Host, scope: Scope, a: Artifact) {
    match a
    case Entry => HasEntry(At(d.configs, w.roots.ConfigPath(h, scope)), w.Command())
    case Shipped(f) => At(d.files, w.roots.Base(h, scope) + f.Relative()) == Some(w.package(f))
  }

  ghost predicate Gone(w: World, d: Disk, h: Host, scope: Scope, a: Artifact) {
    match a
    case Entry => NoEntry(At(d.configs, w.roots.ConfigPath(h, scope)))
    case Shipped(f) => w.roots.Base(h, scope) + f.Relative() !in d.files
  }

  ghost predicate Installed(w: World, d: Disk, c: Configured) {
    forall a: Artifact :: a.Of() == c.surface ==> Present(w, d, c.host, c.scope, a)
  }

  ghost predicate Removed(w: World, d: Disk, c: Configured) {
    forall a: Artifact :: a.Of() == c.surface ==> Gone(w, d, c.host, c.scope, a)
  }

  // Everywhere, artifacts of the surfaces in `t` stay current and those of the
  // others stay gone.
  ghost predicate Favours(w: World, t: set<Surface>, d: Disk, e: Disk) {
    && (forall h, scope, a: Artifact :: a.Of() in t && Present(w, d, h, scope, a) ==> Present(w, e, h, scope, a))
    && (forall h, scope, a: Artifact :: a.Of() !in t && Gone(w, d, h, scope, a) ==> Gone(w, e, h, scope, a))
  }

  // An action that works towards the surfaces in `t`.
  ghost predicate Towards(w: World, t: set<Surface>, s: Surface, act: Action) {
    match act
    case Undeploy => s !in t
    case Deploy(command) => s in t && (s == Mcp ==> command == w.Command())
    case Refresh(_, dry) => s in t && !dry
  }

  ghost predicate Achieved(w: World, d: Disk, h: Host, scope: Scope, a: Artifact, act: Action) {
    if act.Undeploy? then Gone(w, d, h, scope, a) else Present(w, d, h, scope, a)
  }

  lemma FileFavours(w: World, t: set<Surface>, d: Disk, h: Host, scope: Scope, f: File, act: Action)
    requires Towards(w, t, f.Of(), act) && Act(w, d, h, scope, Shipped(f), act).end.Succeeded?
    ensures Favours(w, t, d, Act(w, d, h, scope, Shipped(f), act).disk)
  {
    var e, p := Act(w, d, h, scope, Shipped(f), act).disk, w.roots.Base(h, scope) + f.Relative();
    forall k, sc, a: Artifact | a.Shipped? && w.roots.Base(k, sc) + a.file.Relative() == p ensures a.file == f {
      FilesApart(w.roots.Base(k, sc), a.file, w.roots.Base(h, scope), f);
    }
  }

  lemma EntryFavours(w: World, t: set<Surface>, d: Disk, h: Host, scope: Scope, act: Action)
    requires Towards(w, t, Mcp, act) && Act(w, d, h, scope, Entry, act).end.Succeeded?
    ensures Favours(w, t, d, Act(w, d, h, scope, Entry, act).disk)
  {
    var e, p := Act(w, d, h, scope, Entry, act).disk, w.roots.ConfigPath(h, scope);
    EntryAchieved(w, t, d, h, scope, act);
    assert forall q :: q != p ==> At(d.configs, q) == At(e.configs, q);
  }

  lemma EntryAchieved(w: World, t: set<Surface>, d: Disk, h: Host, scope: Scope, act: Action)
    requires Towards(w, t, Mcp, act) && Act(w, d, h, scope, Entry, act).end.Succeeded?
    ensures Achieved(w, Act(w, d, h, scope, Entry, act).disk, h, scope, Entry, act)
  {
  }

  lemma ActFavours(w: World, t: set<Surface>, d: Disk, h: Host, scope: Scope, a: Artifact, act: Action)
    requires Towards(w, t, a.Of(), act) && Act(w, d, h, scope, a, act).end.Succeeded?
    ensures Favours(w, t, d, Act(w, d, h, scope, a, act).disk)
    ensures Achieved(w, Act(w, d, h, scope, a, act).disk, h, scope, a, act)
  {
    hide Favours, PutEntry, DropEntry;
    if a.Entry? {
      EntryAchieved(w, t, d, h, scope, act);
      EntryFavours(w, t, d, h, scope, act);
    } else {
      FileFavours(w, t, d, h, scope, a.file, act);
    }
  }

  lemma AchievedStays(w: World, t: set<Surface>, d: Disk, e: Disk, h: Host, scope: Scope, a: Artifact, act: Action)
    requires Towards(w, t, a.Of(), act) && Favours(w, t, d, e) && Achieved(w, d, h, scope, a, act)
    ensures Achieved(w, e, h, scope, a, act)
  {
  }

  lemma FavoursTransitive(w: World, t: set<Surface>, d: Disk, e: Disk, g: Disk)
    requires Favours(w, t, d, e) && Favours(w, t, e, g)
    ensures Favours(w, t, d, g)
  {
    hide Present, Gone;
  }

  lemma {:induction false} ActAllFavours(w: World, t: set<Surface>, d: Disk, h: Host, scope: Scope, artifacts: seq<Artifact>, act: Action)
    requires ActAll(w, d, h, scope, artifacts, act).AllSucceeded()
    requires forall i :: 0 <= i < |artifacts| ==> Towards(w, t, artifacts[i].Of(), act)
    ensures var e := ActAll(w, d, h, scope, artifacts, act).disk;
            && Favours(w, t, d, e)
            && (forall i :: 0 <= i < |artifacts| ==> Achieved(w, e, h, scope, artifacts[i], act))
    decreases |artifacts|
  {
    hide Favours, Achieved, Act;
    if artifacts == [] {
      FavoursSelf(w, t, d);
    } else {
      var s, a := Act(w, d, h, scope, artifacts[0], act), artifacts[0];
      var rest := ActAll(w, s.disk, h, scope, artifacts[1..], act);
      SuccessSplits(rest, [s.end.Succeeded?]);
      assert [s.end.Succeeded?][0];
      ActFavours(w, t, d, h, scope, a, act);
      ActAllFavours(w, t, s.disk, h, scope, artifacts[1..], act);
      FavoursTransitive(w, t, d, s.disk, rest.disk);
      AchievedStays(w, t, s.disk, rest.disk, h, scope, a, act);
      assert forall i :: 0 < i < |artifacts| ==> artifacts[i] == artifacts[1..][i - 1];
    }
  }

  lemma FavoursSelf(w: World, t: set<Surface>, d: Disk)
    ensures Favours(w, t, d, d)
  {
  }

  lemma SuccessSplits(r: Run, earlier: seq<bool>)
    requires r.After(earlier).AllSucceeded()
    ensures r.AllSucceeded() && forall i :: 0 <= i < |earlier| ==> earlier[i]
  {
    var all := earlier + r.results;
    assert forall i :: 0 <= i < |r.results| ==> r.results[i] == all[|earlier| + i];
    assert forall i :: 0 <= i < |earlier| ==> earlier[i] == all[i];
  }

  // The surfaces a run works towards.
  function Goal(chosen: Option<Surface>): set<Surface> {
    if chosen.Some? then {chosen.value} else {Mcp, Cli}
  }

  ghost predicate Settled(w: World, d: Disk, c: Configured, chosen: Option<Surface>) {
    Installed(w, d, Target(c, chosen)) && (Migrates(c, chosen) ==> Removed(w, d, c))
  }

  lemma SettledStays(w: World, d: Disk, e: Disk, c: Configured, chosen: Option<Surface>)
    requires Settled(w, d, c, chosen) && Favours(w, Goal(chosen), d, e)
    ensures Settled(w, e, c, chosen)
  {
    hide Present, Gone;
    var s := Target(c, chosen).surface;
    ManifestExactly(s);
    ManifestExactly(c.surface);
    assert s == Mcp || s == Cli;
  }

  lemma UpdateHostSettles(w: World, d: Disk, c: Configured, o: Options, command: string)
    requires !o.dry && (o.chosen == Some(Mcp) ==> command == w.Command() || !Migrates(c, o.chosen))
    requires UpdateHost(w, d, c, o, command).AllSucceeded()
    ensures var e := UpdateHost(w, d, c, o, command).disk; Favours(w, Goal(o.chosen), d, e) && Settled(w, e, c, o.chosen)
  {
    hide ActAll, Present, Gone, Favours;
    var t, e := Goal(o.chosen), UpdateHost(w, d, c, o, command).disk;
    ManifestExactly(c.surface);
    if Migrates(c, o.chosen) {
      ManifestExactly(o.chosen.value);
      var mid := ActAll(w, d, c.host, c.scope, Manifest(c.surface), Undeploy);
      SuccessSplits(ActAll(w, mid.disk, c.host, c.scope, Manifest(o.chosen.value), Deploy(command)), mid.results);
      ActAllFavours(w, t, d, c.host, c.scope, Manifest(c.surface), Undeploy);
      ActAllFavours(w, t, mid.disk, c.host, c.scope, Manifest(o.chosen.value), Deploy(command));
      FavoursTransitive(w, t, d, mid.disk, e);
      forall a: Artifact | a.Of() == c.surface ensures Gone(w, e, c.host, c.scope, a) {
        assert a in Manifest(c.surface);
        AchievedStays(w, t, mid.disk, e, c.host, c.scope, a, Undeploy);
      }
    } else {
      ActAllFavours(w, t, d, c.host, c.scope, Manifest(c.surface), Refresh(o.force, o.dry));
    }
  }

  lemma {:induction false} UpdateHostsSettle(w: World, d: Disk, hosts: seq<Configured>, o: Options, command: string)
    requires !o.dry && (o.chosen == Some(Mcp) ==> command == w.Command() || !AnyMigrates(hosts, o.chosen))
    requires UpdateHosts(w, d, hosts, o, command).AllSucceeded()
    ensures var e := UpdateHosts(w, d, hosts, o, command).disk;
            && Favours(w, Goal(o.chosen), d, e)
            && (forall i :: 0 <= i < |hosts| ==> Settled(w, e, hosts[i], o.chosen))
    decreases |hosts|
  {
    hide Favours, Settled, UpdateHost, Goal;
    if hosts == [] {
      FavoursSelf(w, Goal(o.chosen), d);
    } else {
      var r := UpdateHost(w, d, hosts[0], o, command);
      var rest := UpdateHosts(w, r.disk, hosts[1..], o, command);
      SuccessSplits(rest, r.results);
      UpdateHostSettles(w, d, hosts[0], o, command);
      UpdateHostsSettle(w, r.disk, hosts[1..], o, command);
      FavoursTransitive(w, Goal(o.chosen), d, r.disk, rest.disk);
      SettledStays(w, r.disk, rest.disk, hosts[0], o.chosen);
      assert forall i :: 0 < i < |hosts| ==> hosts[i] == hosts[1..][i - 1];
    }
  }

  ghost predicate Clean(out: Outcome) {
    out.Finished? && forall i :: 0 <= i < |out.results| ==> out.results[i]
  }

  // When nothing fails, every host is installed on its new surface, and nothing
  // of the surface it left remains.
  lemma CleanRunSettles(w: World, d: Disk, o: Options, scan: seq<Configured>)
    requires !o.dry && Clean(Update(w, d, o, scan).1)
    ensures var (e, out) := Update(w, d, o, scan);
            var hosts := Detected(d, scan);
            && |out.updated| == |hosts|
            && (forall i :: 0 <= i < |hosts| ==>
                  && out.updated[i] == Configured(hosts[i].host, hosts[i].scope, if o.chosen.Some? then o.chosen.value else hosts[i].surface)
                  && (forall a: Artifact :: a.Of() == out.updated[i].surface ==> Present(w, e, hosts[i].host, hosts[i].scope, a))
                  && (forall a: Artifact :: a.Of() == hosts[i].surface != out.updated[i].surface ==>
                        Gone(w, e, hosts[i].host, hosts[i].scope, a)))
  {
    hide UpdateHosts, Settled, Present, Gone;
    var hosts := Detected(d, scan);
    var r, e := UpdateHosts(w, d, hosts, o, Binary(w, hosts, o)).disk, Update(w, d, o, scan).0;
    UpdateHostsSettle(w, d, hosts, o, Binary(w, hosts, o));
    forall i | 0 <= i < |hosts| ensures Settled(w, e, hosts[i], o.chosen) {
      SameSettled(w, r, e, hosts[i], o.chosen);
    }
    forall i | 0 <= i < |hosts|
      ensures var c := hosts[i];
              var s := if o.chosen.Some? then o.chosen.value else c.surface;
              && Target(c, o.chosen) == Configured(c.host, c.scope, s)
              && (forall a: Artifact :: a.Of() == s ==> Present(w, e, c.host, c.scope, a))
              && (forall a: Artifact :: a.Of() == c.surface != s ==> Gone(w, e, c.host, c.scope, a))
    {
      SettledArtifacts(w, e, hosts[i], o.chosen);
    }
  }

  lemma SettledArtifacts(w: World, d: Disk, c: Configured, chosen: Option<Surface>)
    requires Settled(w, d, c, chosen)
    ensures var s := if chosen.Some? then chosen.value else c.surface;
            && Target(c, chosen) == Configured(c.host, c.scope, s)
            && (forall a: Artifact :: a.Of() == s ==> Present(w, d, c.host, c.scope, a))
            && (forall a: Artifact :: a.Of() == c.surface != s ==> Gone(w, d, c.host, c.scope, a))
  {
    hide Present, Gone;
  }

  lemma CleanRunInstalls(w: World, d: Disk, o: Options, scan: seq<Configured>)
    requires !o.dry && Clean(Update(w, d, o, scan).1)
    ensures var (e, out) := Update(w, d, o, scan);
            var hosts := Detected(d, scan);
            && |out.updated| == |hosts|
            && (forall i :: 0 <= i < |hosts| ==>
                  && out.updated[i] == Target(hosts[i], o.chosen)
                  && Installed(w, e, out.updated[i])
                  && (Migrates(hosts[i], o.chosen) ==> Removed(w, e, hosts[i])))
  {
    hide Update, Present, Gone;
    CleanRunSettles(w, d, o, scan);
    var (e, out) := Update(w, d, o, scan);
    var hosts := Detected(d, scan);
    forall i | 0 <= i < |hosts|
      ensures out.updated[i] == Target(hosts[i], o.chosen) && Installed(w, e, out.updated[i])
      ensures Migrates(hosts[i], o.chosen) ==> Removed(w, e, hosts[i])
    {
    }
  }

  lemma SameSettled(w: World, d: Disk, e: Disk, c: Configured, chosen: Option<Surface>)
    requires Settled(w, d, c, chosen) && e.files == d.files && e.configs == d.configs
    ensures Settled(w, e, c, chosen)
  {
    forall h, scope, a ensures Present(w, d, h, scope, a) ==> Present(w, e, h, scope, a)
    {}
    forall h, scope, a ensures Gone(w, d, h, scope, a) ==> Gone(w, e, h, scope, a)
    {}
  }

  // ---- What makes a result fail, and which results there are ----

  // A run ends early exactly when no host is found, or when a real migration finds
  // no binary on the search path nor by asking.
  lemma EarlyExits(w: World, d: Disk, o: Options, scan: seq<Configured>)
    ensures var (e, out) := Update(w, d, o, scan);
            var hosts := if d.marker.Some? then d.marker.value else scan;
            && (out.NoHosts? <==> hosts == [])
            && (out.NoBinary? <==>
                  && !o.dry && o.chosen.Some? && (exists c :: c in hosts && c.surface != o.chosen.value)
                  && w.onPath(o.chosen.value).None? && (w.interactive ==> w.asked(o.chosen.value).None?))
            && (out.NoHosts? || out.NoBinary? ==> e == d)
  {
    hide UpdateHosts, Targets;
    assert Detected(d, scan) == if d.marker.Some? then d.marker.value else scan;
  }

  ghost predicate Damaged(w: World, d: Disk, c: Configured) {
    var p := w.roots.ConfigPath(c.host, c.scope);
    p in d.configs && !d.configs[p].Object?
  }

  lemma EntryNeedsDocument(w: World, d: Disk, c: Configured, act: Action)
    requires Damaged(w, d, c)
    ensures !Act(w, d, c.host, c.scope, Entry, act).end.Succeeded?
  {
  }

  // Tearing down or refreshing starts with the entry of the MCP surface.
  lemma McpNeedsDocument(w: World, d: Disk, c: Configured, act: Action)
    requires ActAll(w, d, c.host, c.scope, Manifest(Mcp), act).AllSucceeded()
    ensures !Damaged(w, d, c)
  {
    hide Damaged, Act;
    var s := Act(w, d, c.host, c.scope, Entry, act);
    assert Manifest(Mcp)[0] == Entry;
    SuccessSplits(ActAll(w, s.disk, c.host, c.scope, Manifest(Mcp)[1..], act), [s.end.Succeeded?]);
    assert [s.end.Succeeded?][0];
    if Damaged(w, d, c) {
      EntryNeedsDocument(w, d, c, act);
    }
  }

  lemma DamagedStays(w: World, hosts: seq<Configured>, d: Disk, e: Disk, c: Configured)
    requires Contained(w, hosts, d, e)
    ensures Damaged(w, e, c) <==> Damaged(w, d, c)
  {
    var p := w.roots.ConfigPath(c.host, c.scope);
    assert Kept(At(d.configs, p), At(e.configs, p));
  }

  lemma UpdateHostReads(w: World, d: Disk, c: Configured, o: Options, command: string)
    requires !o.dry && UpdateHost(w, d, c, o, command).AllSucceeded()
    ensures c.surface == Mcp || Target(c, o.chosen).surface == Mcp ==> !Damaged(w, d, c)
  {
    hide ActAll, Damaged, Contained, Manifest;
    if Migrates(c, o.chosen) {
      var t := ActAll(w, d, c.host, c.scope, Manifest(c.surface), Undeploy);
      SuccessSplits(ActAll(w, t.disk, c.host, c.scope, Manifest(o.chosen.value), Deploy(command)), t.results);
      if c.surface == Mcp { McpNeedsDocument(w, d, c, Undeploy); }
      if o.chosen.value == Mcp {
        McpNeedsDocument(w, t.disk, c, Deploy(command));
        ActAllContained(w, [c], d, c, Manifest(c.surface), Undeploy);
        DamagedStays(w, [c], d, t.disk, c);
      }
    } else if c.surface == Mcp {
      McpNeedsDocument(w, d, c, Refresh(o.force, o.dry));
    }
  }

  lemma {:induction false} UpdateHostsRead(w: World, d: Disk, hosts: seq<Configured>, o: Options, command: string, i: nat)
    requires !o.dry && UpdateHosts(w, d, hosts, o, command).AllSucceeded() && i < |hosts|
    ensures hosts[i].surface == Mcp || Target(hosts[i], o.chosen).surface == Mcp ==> !Damaged(w, d, hosts[i])
    decreases |hosts|
  {
    hide UpdateHost, Damaged, Contained;
    var r := UpdateHost(w, d, hosts[0], o, command);
    SuccessSplits(UpdateHosts(w, r.disk, hosts[1..], o, command), r.results);
    UpdateHostReads(w, d, hosts[0], o, command);
    if i > 0 {
      UpdateHostsRead(w, r.disk, hosts[1..], o, command, i - 1);
      UpdateHostContained(w, hosts, d, hosts[0], o, command);
      DamagedStays(w, hosts, d, r.disk, hosts[i]);
    }
  }

  // A run that is to enter or to remove an entry in a document that is no JSON
  // object does not succeed.
  lemma DamageShows(w: World, d: Disk, o: Options, scan: seq<Configured>, c: Configured)
    requires !o.dry && c in Detected(d, scan) && (c.surface == Mcp || o.chosen == Some(Mcp))
    requires var p := w.roots.ConfigPath(c.host, c.scope); p in d.configs && !d.configs[p].Object?
    ensures !Clean(Update(w, d, o, scan).1)
  {
    hide UpdateHosts;
    var hosts := Detected(d, scan);
    if Clean(Update(w, d, o, scan).1) {
      var i :| 0 <= i < |hosts| && hosts[i] == c;
      UpdateHostsRead(w, d, hosts, o, Binary(w, hosts, o), i);
    }
  }

  function Rows(s: Surface): nat {
    if s == Mcp then 3 else 2
  }

  // A refreshed host contributes a result for each artifact of its surface, a
  // migrated one for each artifact of either.
  function ResultCount(hosts: seq<Configured>, o: Options): nat {
    if hosts == [] then 0
    else
      var s := hosts[0].surface;
      (if o.chosen.None? || o.chosen.value == s then Rows(s) else if o.dry then 0 else Rows(Mcp) + Rows(Cli))
      + ResultCount(hosts[1..], o)
  }

  lemma {:induction false} ActAllCount(w: World, d: Disk, h: Host, scope: Scope, artifacts: seq<Artifact>, act: Action)
    ensures var r := ActAll(w, d, h, scope, artifacts, act); !r.crashed ==> |r.results| == |artifacts|
    decreases |artifacts|
  {
    hide Act;
    if artifacts != [] {
      ActAllCount(w, Act(w, d, h, scope, artifacts[0], act).disk, h, scope, artifacts[1..], act);
    }
  }

  lemma {:induction false} UpdateHostsCount(w: World, d: Disk, hosts: seq<Configured>, o: Options, command: string)
    ensures var r := UpdateHosts(w, d, hosts, o, command); !r.crashed ==> |r.results| == ResultCount(hosts, o)
    decreases |hosts|
  {
    hide ActAll;
    if hosts != [] {
      var c := hosts[0];
      ActAllCount(w, d, c.host, c.scope, Manifest(c.surface), Refresh(o.force, o.dry));
      ActAllCount(w, d, c.host, c.scope, Manifest(c.surface), Undeploy);
      var t := ActAll(w, d, c.host, c.scope, Manifest(c.surface), Undeploy).disk;
      if Migrates(c, o.chosen) {
        ActAllCount(w, t, c.host, c.scope, Manifest(o.chosen.value), Deploy(command));
        assert {c.surface, o.chosen.value} == {Mcp, Cli};
      }
      UpdateHostsCount(w, UpdateHost(w, d, c, o, command).disk, hosts[1..], o, command);
    }
  }

  // A failure stops nothing: a finished run has tried every artifact of every
  // host, and records a migration whether or not its results succeeded.
  lemma FinishedRunTriedAll(w: World, d: Disk, o: Options, scan: seq<Configured>)
    requires Update(w, d, o, scan).1.Finished?
    ensures var (e, out) := Update(w, d, o, scan);
            var hosts := Detected(d, scan);
            var written := w.io(UpdateHosts(w, d, hosts, o, Binary(w, hosts, o)).disk.tick).Works?;
            && |out.results| == ResultCount(hosts, o)
            && e.marker == if !o.dry && o.chosen.Some? && (exists c :: c in hosts && c.surface != o.chosen.value) && written
                           then Some(out.updated) else d.marker
  {
    hide UpdateHosts, Targets;
    var hosts := Detected(d, scan);
    UpdateHostsCount(w, d, hosts, o, Binary(w, hosts, o));
    HostsKeepMarker(w, d, hosts, o, Binary(w, hosts, o));
  }

  // Every operation is refused, or is a forced write that fails.
  ghost predicate AllFail(w: World, force: bool, dry: bool) {
    forall t :: w.io(t).Refused? || (force && !dry && w.io(t).Torn?)
  }

  lemma {:induction false} ActAllFails(w: World, d: Disk, h: Host, scope: Scope, artifacts: seq<Artifact>, force: bool, dry: bool)
    requires AllFail(w, force, dry)
    ensures var r := ActAll(w, d, h, scope, artifacts, Refresh(force, dry));
            !r.crashed && forall i :: 0 <= i < |r.results| ==> !r.results[i]
    decreases |artifacts|
  {
    if artifacts != [] {
      assert !w.io(d.tick).Works?;
      ActAllFails(w, Act(w, d, h, scope, artifacts[0], Refresh(force, dry)).disk, h, scope, artifacts[1..], force, dry);
    }
  }

  lemma {:induction false} UpdateHostsFail(w: World, d: Disk, hosts: seq<Configured>, o: Options, command: string)
    requires AllFail(w, o.force, o.dry) && !AnyMigrates(hosts, o.chosen)
    ensures var r := UpdateHosts(w, d, hosts, o, command);
            !r.crashed && forall i :: 0 <= i < |r.results| ==> !r.results[i]
    decreases |hosts|
  {
    hide ActAll, AllFail;
    if hosts != [] {
      var c := hosts[0];
      assert !Migrates(c, o.chosen);
      ActAllFails(w, d, c.host, c.scope, Manifest(c.surface), o.force, o.dry);
      UpdateHostsFail(w, UpdateHost(w, d, c, o, command).disk, hosts[1..], o, command);
    }
  }

  ghost predicate NothingGoesThrough(w: World) {
    forall t :: w.io(t).Refused? || w.io(t) == Torn(None)
  }

  lemma {:induction false} ActAllSame(w: World, d: Disk, h: Host, scope: Scope, artifacts: seq<Artifact>, act: Action)
    requires NothingGoesThrough(w)
    ensures d.Same(ActAll(w, d, h, scope, artifacts, act).disk)
    decreases |artifacts|
  {
    if artifacts != [] {
      assert w.io(d.tick).Refused? || w.io(d.tick) == Torn(None);
      var s := Act(w, d, h, scope, artifacts[0], act);
      assert d.Same(s.disk);
      ActAllSame(w, s.disk, h, scope, artifacts[1..], act);
    }
  }

  lemma {:induction false} UpdateHostsSame(w: World, d: Disk, hosts: seq<Configured>, o: Options, command: string)
    requires NothingGoesThrough(w)
    ensures d.Same(UpdateHosts(w, d, hosts, o, command).disk)
    decreases |hosts|
  {
    hide ActAll, NothingGoesThrough;
    if hosts != [] {
      var c := hosts[0];
      ActAllSame(w, d, c.host, c.scope, Manifest(c.surface), Refresh(o.force, o.dry));
      ActAllSame(w, d, c.host, c.scope, Manifest(c.surface), Undeploy);
      if Migrates(c, o.chosen) {
        var t := ActAll(w, d, c.host, c.scope, Manifest(c.surface), Undeploy).disk;
        ActAllSame(w, t, c.host, c.scope, Manifest(o.chosen.value), Deploy(command));
      }
      UpdateHostsSame(w, UpdateHost(w, d, c, o, command).disk, hosts[1..], o, command);
    }
  }

  // Where no write goes through and none leaves anything behind, a run changes
  // nothing, whatever it is asked to do.
  lemma NoWriteNoChange(w: World, d: Disk, o: Options, scan: seq<Configured>)
    requires forall t :: w.io(t).Refused? || w.io(t) == Torn(None)
    ensures d.Same(Update(w, d, o, scan).0)
  {
    hide UpdateHosts;
    var hosts := Detected(d, scan);
    UpdateHostsSame(w, d, hosts, o, Binary(w, hosts, o));
    assert forall t :: !w.io(t).Works?;
  }

  // A refresh reads every artifact, and if forced writes every one anew, current or
  // not: where nothing can be read, or a forced write never goes through, every
  // result fails.
  lemma RefreshFails(w: World, d: Disk, o: Options, scan: seq<Configured>)
    requires (forall t :: w.io(t).Refused? || (o.force && !o.dry && w.io(t).Torn?)) && Detected(d, scan) != []
    requires o.chosen.Some? ==> forall c :: c in Detected(d, scan) ==> c.surface == o.chosen.value
    ensures var out := Update(w, d, o, scan).1; out.Finished? && forall i :: 0 <= i < |out.results| ==> !out.results[i]
  {
    UpdateHostsFail(w, d, Detected(d, scan), o, Binary(w, Detected(d, scan), o));
  }

  // No document to take an entry from, or no file to remove.
  ghost predicate Missing(w: World, d: Disk, h: Host, scope: Scope, a: Artifact) {
    match a
    case Entry => w.roots.ConfigPath(h, scope) !in d.configs
    case Shipped(f) => w.roots.Base(h, scope) + f.Relative() !in d.files
  }

  // Where everything is refused, only the removal of what is not there succeeds.
  lemma {:induction false} RefusedExactly(w: World, d: Disk, h: Host, scope: Scope, artifacts: seq<Artifact>, act: Action)
    requires forall t :: w.io(t).Refused?
    ensures var r := ActAll(w, d, h, scope, artifacts, act);
            && d.Same(r.disk) && !r.crashed && |r.results| == |artifacts|
            && forall i :: 0 <= i < |artifacts| ==> (r.results[i] <==> act.Undeploy? && Missing(w, d, h, scope, artifacts[i]))
    decreases |artifacts|
  {
    if artifacts != [] {
      var s := Act(w, d, h, scope, artifacts[0], act);
      RefusedAct(w, d, h, scope, artifacts[0], act);
      hide Act, Missing;
      RefusedExactly(w, s.disk, h, scope, artifacts[1..], act);
      forall a ensures Missing(w, s.disk, h, scope, a) <==> Missing(w, d, h, scope, a) { SameMissing(w, d, s.disk, h, scope, a); }
    }
  }

  lemma RefusedAct(w: World, d: Disk, h: Host, scope: Scope, a: Artifact, act: Action)
    requires forall t :: w.io(t).Refused?
    ensures var s := Act(w, d, h, scope, a, act);
            d.Same(s.disk) && !s.end.Crashed? && (s.end.Succeeded? <==> act.Undeploy? && Missing(w, d, h, scope, a))
  {
    assert w.io(d.tick).Refused?;
  }

  lemma SameMissing(w: World, d: Disk, e: Disk, h: Host, scope: Scope, a: Artifact)
    requires d.Same(e)
    ensures Missing(w, e, h, scope, a) <==> Missing(w, d, h, scope, a)
  {
  }

  // ---- Migration overwrites nothing ----

  ghost predicate ShippedAt(q: Path, s: Surface) {
    exists base, f: File :: f.Of() == s && q == base + f.Relative()
  }

  lemma ShippedApart(q: Path)
    ensures !(ShippedAt(q, Mcp) && ShippedAt(q, Cli))
  {
    if ShippedAt(q, Mcp) && ShippedAt(q, Cli) {
      var b, f: File :| f.Of() == Mcp && q == b + f.Relative();
      var c, g: File :| g.Of() == Cli && q == c + g.Relative();
      FilesApart(b, f, c, g);
    }
  }

  // Tearing down `s` only removes files, and only its own.
  ghost predicate OnlyRemoves(d: Disk, e: Disk, s: Surface) {
    forall q :: At(d.files, q) == At(e.files, q) || (q !in e.files && ShippedAt(q, s))
  }

  // Deploying `s` only adds files, and only its own.
  ghost predicate OnlyAdds(d: Disk, e: Disk, s: Surface) {
    forall q :: At(d.files, q) == At(e.files, q) || (q !in d.files && ShippedAt(q, s))
  }

  lemma ActOnlyMoves(w: World, d: Disk, h: Host, scope: Scope, a: Artifact, act: Action)
    ensures act.Undeploy? ==> OnlyRemoves(d, Act(w, d, h, scope, a, act).disk, a.Of())
    ensures act.Deploy? ==> OnlyAdds(d, Act(w, d, h, scope, a, act).disk, a.Of())
  {
    if a.Shipped? {
      assert ShippedAt(w.roots.Base(h, scope) + a.file.Relative(), a.Of());
    }
  }

  lemma {:induction false} ActAllOnlyMoves(w: World, d: Disk, h: Host, scope: Scope, artifacts: seq<Artifact>, act: Action, s: Surface)
    requires forall i :: 0 <= i < |artifacts| ==> artifacts[i].Of() == s
    ensures act.Undeploy? ==> OnlyRemoves(d, ActAll(w, d, h, scope, artifacts, act).disk, s)
    ensures act.Deploy? ==> OnlyAdds(d, ActAll(w, d, h, scope, artifacts, act).disk, s)
    decreases |artifacts|
  {
    hide Act, ShippedAt;
    if artifacts != [] {
      ActOnlyMoves(w, d, h, scope, artifacts[0], act);
      ActAllOnlyMoves(w, Act(w, d, h, scope, artifacts[0], act).disk, h, scope, artifacts[1..], act, s);
    }
  }

  // Migrating a host leaves every file alone except those of the surface it
  // leaves, which may go; a file in the way of the new surface is not overwritten.
  lemma MigrationOverwritesNothing(w: World, d: Disk, c: Configured, o: Options, command: string, q: Path)
    requires Migrates(c, o.chosen) && q in d.files
    ensures var e := UpdateHost(w, d, c, o, command).disk;
            At(e.files, q) == At(d.files, q) || (q !in e.files && ShippedAt(q, c.surface))
  {
    hide ActAll, ShippedAt;
    var s := o.chosen.value;
    var t := ActAll(w, d, c.host, c.scope, Manifest(c.surface), Undeploy);
    ManifestExactly(c.surface);
    ManifestExactly(s);
    ActAllOnlyMoves(w, d, c.host, c.scope, Manifest(c.surface), Undeploy, c.surface);
    ActAllOnlyMoves(w, t.disk, c.host, c.scope, Manifest(s), Deploy(command), s);
    ShippedApart(q);
    assert {c.surface, s} == {Mcp, Cli};
  }

  // ---- What a recorded migration leaves behind ----

  // Refreshing a surface touches only its own files, and no document unless it has
  // an entry.
  ghost predicate OnlyTouches(d: Disk, e: Disk, s: Surface) {
    && (forall q :: At(d.files, q) == At(e.files, q) || ShippedAt(q, s))
    && (s == Cli ==> d.configs == e.configs)
    && d.marker == e.marker
  }

  lemma RefreshTouches(w: World, d: Disk, h: Host, scope: Scope, a: Artifact, force: bool, dry: bool)
    ensures OnlyTouches(d, Act(w, d, h, scope, a, Refresh(force, dry)).disk, a.Of())
  {
    if a.Shipped? {
      assert ShippedAt(w.roots.Base(h, scope) + a.file.Relative(), a.Of());
    }
  }

  lemma {:induction false} RefreshAllTouches(w: World, d: Disk, h: Host, scope: Scope, artifacts: seq<Artifact>, force: bool, dry: bool,
                                             s: Surface)
    requires forall i :: 0 <= i < |artifacts| ==> artifacts[i].Of() == s
    ensures OnlyTouches(d, ActAll(w, d, h, scope, artifacts, Refresh(force, dry)).disk, s)
    decreases |artifacts|
  {
    hide Act, ShippedAt;
    if artifacts != [] {
      RefreshTouches(w, d, h, scope, artifacts[0], force, dry);
      var e := Act(w, d, h, scope, artifacts[0], Refresh(force, dry)).disk;
      RefreshAllTouches(w, e, h, scope, artifacts[1..], force, dry, s);
    }
  }

  lemma {:induction false} HostsTouch(w: World, d: Disk, hosts: seq<Configured>, o: Options, command: string, s: Surface)
    requires o.chosen == Some(s) && forall i :: 0 <= i < |hosts| ==> hosts[i].surface == s
    ensures OnlyTouches(d, UpdateHosts(w, d, hosts, o, command).disk, s)
    decreases |hosts|
  {
    hide ActAll, ShippedAt;
    if hosts != [] {
      var c := hosts[0];
      ManifestExactly(s);
      RefreshAllTouches(w, d, c.host, c.scope, Manifest(s), o.force, o.dry, s);
      HostsTouch(w, UpdateHost(w, d, c, o, command).disk, hosts[1..], o, command, s);
    }
  }

  // One later call of the command.
  datatype Call = Call(world: World, options: Options, scan: seq<Configured>)

  function Later(d: Disk, calls: seq<Call>): Disk
    decreases |calls|
  {
    if calls == [] then d
    else Later(Update(calls[0].world, d, calls[0].options, calls[0].scan).0, calls[1..])
  }

  lemma LaterCallTouches(d: Disk, call: Call, s: Surface)
    requires call.options.chosen == Some(s)
    requires d.marker.Some? && forall i :: 0 <= i < |d.marker.value| ==> d.marker.value[i].surface == s
    ensures OnlyTouches(d, Update(call.world, d, call.options, call.scan).0, s)
  {
    hide UpdateHosts, ShippedAt;
    var hosts := d.marker.value;
    HostsTouch(call.world, d, hosts, call.options, Binary(call.world, hosts, call.options), s);
    assert !AnyMigrates(hosts, Some(s));
  }

  // Once a migration to `s` is recorded, no later update to `s` touches a file of
  // the surface that was left, so what a failed teardown left behind stays: files
  // always, and an entry in a document too when `s` is `cli`.
  lemma {:induction false} LeftoversStay(d: Disk, calls: seq<Call>, s: Surface)
    requires forall i :: 0 <= i < |calls| ==> calls[i].options.chosen == Some(s)
    requires d.marker.Some? && forall i :: 0 <= i < |d.marker.value| ==> d.marker.value[i].surface == s
    ensures var e := Later(d, calls);
            && e.marker == d.marker
            && (forall q :: !ShippedAt(q, s) ==> At(e.files, q) == At(d.files, q))
            && (s == Cli ==> e.configs == d.configs)
    decreases |calls|
  {
    hide Update, ShippedAt;
    if calls != [] {
      LaterCallTouches(d, calls[0], s);
      LeftoversStay(Update(calls[0].world, d, calls[0].options, calls[0].scan).0, calls[1..], s);
    }
  }

  // ---- When a run dies ----

  ghost predicate Unreadable(w: World, d: Disk, c: Configured) {
    var p := w.roots.ConfigPath(c.host, c.scope);
    p in d.configs && d.configs[p].NotObject?
  }

  lemma {:induction false} FilesNeverCrash(w: World, d: Disk, h: Host, scope: Scope, artifacts: seq<Artifact>, act: Action)
    requires act.Undeploy? ==> forall i :: 0 <= i < |artifacts| ==> artifacts[i].Shipped?
    ensures !ActAll(w, d, h, scope, artifacts, act).crashed
    decreases |artifacts|
  {
    if artifacts != [] {
      FilesNeverCrash(w, Act(w, d, h, scope, artifacts[0], act).disk, h, scope, artifacts[1..], act);
    }
  }

  lemma UndeployCrashes(w: World, d: Disk, c: Configured)
    requires forall t :: !w.io(t).Refused?
    ensures ActAll(w, d, c.host, c.scope, Manifest(c.surface), Undeploy).crashed <==> c.surface == Mcp && Unreadable(w, d, c)
  {
    var m := Manifest(c.surface);
    assert !w.io(d.tick).Refused?;
    if c.surface == Mcp {
      assert m[0] == Entry && m[1..] == [Shipped(McpSkill), Shipped(McpAgent)];
      FilesNeverCrash(w, Act(w, d, c.host, c.scope, Entry, Undeploy).disk, c.host, c.scope, m[1..], Undeploy);
    } else {
      FilesNeverCrash(w, d, c.host, c.scope, m, Undeploy);
    }
  }

  lemma UpdateHostCrashes(w: World, d: Disk, c: Configured, o: Options, command: string)
    requires forall t :: !w.io(t).Refused?
    ensures UpdateHost(w, d, c, o, command).crashed
       <==> Migrates(c, o.chosen) && !o.dry && c.surface == Mcp && Unreadable(w, d, c)
  {
    hide ActAll, Unreadable, Manifest;
    if !Migrates(c, o.chosen) {
      FilesNeverCrash(w, d, c.host, c.scope, Manifest(c.surface), Refresh(o.force, o.dry));
    } else if !o.dry {
      UndeployCrashes(w, d, c);
      var t := ActAll(w, d, c.host, c.scope, Manifest(c.surface), Undeploy).disk;
      FilesNeverCrash(w, t, c.host, c.scope, Manifest(o.chosen.value), Deploy(command));
    }
  }

  // The document comes first: a host whose update dies is left as it was.
  lemma DyingHostIsUntouched(w: World, d: Disk, c: Configured, o: Options, command: string)
    requires UpdateHost(w, d, c, o, command).crashed
    ensures d.Same(UpdateHost(w, d, c, o, command).disk) && UpdateHost(w, d, c, o, command).results == []
  {
    hide ActAll;
    if Migrates(c, o.chosen) {
      TeardownDiesFirst(w, d, c);
      var t := ActAll(w, d, c.host, c.scope, Manifest(c.surface), Undeploy).disk;
      FilesNeverCrash(w, t, c.host, c.scope, Manifest(o.chosen.value), Deploy(command));
    } else {
      FilesNeverCrash(w, d, c.host, c.scope, Manifest(c.surface), Refresh(o.force, o.dry));
    }
  }

  lemma TeardownDiesFirst(w: World, d: Disk, c: Configured)
    ensures var t := ActAll(w, d, c.host, c.scope, Manifest(c.surface), Undeploy); t.crashed ==> d.Same(t.disk) && t.results == []
  {
    var m := Manifest(c.surface);
    if c.surface == Mcp {
      assert m[0] == Entry && m[1..] == [Shipped(McpSkill), Shipped(McpAgent)];
      FilesNeverCrash(w, Act(w, d, c.host, c.scope, Entry, Undeploy).disk, c.host, c.scope, m[1..], Undeploy);
    } else {
      FilesNeverCrash(w, d, c.host, c.scope, m, Undeploy);
    }
  }

  // Documents that are no object stay what they are, and none becomes one.
  lemma UnreadableStays(w: World, hosts: seq<Configured>, d: Disk, e: Disk, c: Configured)
    requires Contained(w, hosts, d, e)
    ensures Unreadable(w, e, c) <==> Unreadable(w, d, c)
  {
    var p := w.roots.ConfigPath(c.host, c.scope);
    assert Kept(At(d.configs, p), At(e.configs, p));
  }

  lemma {:induction false} UpdateHostsCrash(w: World, d: Disk, hosts: seq<Configured>, o: Options, command: string)
    requires forall t :: !w.io(t).Refused?
    ensures UpdateHosts(w, d, hosts, o, command).crashed
       <==> !o.dry && exists i :: 0 <= i < |hosts| && Migrates(hosts[i], o.chosen) && hosts[i].surface == Mcp && Unreadable(w, d, hosts[i])
    decreases |hosts|
  {
    hide UpdateHost, Unreadable, Contained, Migrates;
    if hosts != [] {
      var e, rest := UpdateHost(w, d, hosts[0], o, command).disk, hosts[1..];
      UpdateHostCrashes(w, d, hosts[0], o, command);
      UpdateHostContained(w, hosts, d, hosts[0], o, command);
      UpdateHostsCrash(w, e, rest, o, command);
      forall i | 0 < i < |hosts| ensures hosts[i] == rest[i - 1] && (Unreadable(w, e, hosts[i]) <==> Unreadable(w, d, hosts[i])) {
        UnreadableStays(w, hosts, d, e, hosts[i]);
      }
    }
  }

  ghost predicate BinariesFound(w: World, d: Disk, o: Options, scan: seq<Configured>) {
    AnyMigrates(Detected(d, scan), o.chosen) ==> w.DeployCommand(o.chosen.value).Some?
  }

  ghost predicate MeetsUnreadable(w: World, d: Disk, o: Options, scan: seq<Configured>) {
    var hosts := Detected(d, scan);
    exists i :: 0 <= i < |hosts| && Migrates(hosts[i], o.chosen) && hosts[i].surface == Mcp && Unreadable(w, d, hosts[i])
  }

  // Where every file can be read, a run dies exactly when it is to take some host
  // off the MCP surface whose document is no JSON object.
  lemma DiesExactly(w: World, d: Disk, o: Options, scan: seq<Configured>)
    requires forall t :: !w.io(t).Refused?
    ensures Update(w, d, o, scan).1.Died? <==> !o.dry && BinariesFound(w, d, o, scan) && MeetsUnreadable(w, d, o, scan)
  {
    hide UpdateHosts, Unreadable;
    var hosts := Detected(d, scan);
    UpdateHostsCrash(w, d, hosts, o, Binary(w, hosts, o));
  }

  // ---- What the next run finds ----

  ghost predicate AllInstalled(w: World, d: Disk, hosts: seq<Configured>) {
    forall i :: 0 <= i < |hosts| ==> Installed(w, d, hosts[i])
  }

  lemma GoneIsNotPresent(w: World, d: Disk, c: Configured)
    requires Removed(w, d, c)
    ensures !Installed(w, d, c)
  {
    var f := if c.surface == Mcp then McpAgent else CliAgent;
    assert Shipped(f).Of() == c.surface;
    assert Gone(w, d, c.host, c.scope, Shipped(f));
  }

  lemma HostsKeepMarker(w: World, d: Disk, hosts: seq<Configured>, o: Options, command: string)
    ensures UpdateHosts(w, d, hosts, o, command).disk.marker == d.marker
  {
    hide UpdateHosts;
    UpdateHostsContained(w, hosts, d, hosts, o, command);
  }

  // After a run without failures the marker tells the truth exactly when its own
  // write, whose failure is not counted, went through or was not needed.
  lemma MarkerTrueExactly(w: World, d: Disk, o: Options, scan: seq<Configured>)
    requires !o.dry && d.marker.Some? && Clean(Update(w, d, o, scan).1)
    ensures var (e, out) := Update(w, d, o, scan);
            var hosts := d.marker.value;
            var written := w.io(UpdateHosts(w, d, hosts, o, Binary(w, hosts, o)).disk.tick).Works?;
            && e.marker.Some?
            && (AllInstalled(w, e, e.marker.value) <==> !AnyMigrates(hosts, o.chosen) || written)
  {
    hide UpdateHosts, Installed, Removed, Contained;
    var (e, out) := Update(w, d, o, scan);
    var hosts := d.marker.value;
    CleanRunInstalls(w, d, o, scan);
    HostsKeepMarker(w, d, hosts, o, Binary(w, hosts, o));
    if AnyMigrates(hosts, o.chosen) {
      var c :| c in hosts && Migrates(c, o.chosen);
      var i :| 0 <= i < |hosts| && hosts[i] == c;
      GoneIsNotPresent(w, e, hosts[i]);
    } else {
      forall i | 0 <= i < |hosts| ensures Target(hosts[i], o.chosen) == hosts[i] {
        assert !Migrates(hosts[i], o.chosen);
      }
    }
  }

  function CliFiles(w: World): map<Path, string> {
    map[w.roots.cwd + [".claude", "skills", "explore-codebase-cli", "SKILL.md"] := w.package(CliSkill),
        w.roots.cwd + [".claude", "agents", "explorer-rag-cli.md"] := w.package(CliAgent)]
  }

  // Moving one fresh project takes five operations and leaves the two files of the
  // `cli` surface.
  lemma LoneMove(w: World, d: Disk, c: Configured, command: string)
    requires c == Configured(ClaudeCode, Project, Mcp) && d == Disk(map[], map[], Some([c]), 0)
    requires forall t :: 0 <= t < 5 ==> w.io(t).Works?
    ensures UpdateHosts(w, d, [c], Options(false, false, Some(Cli)), command)
         == Run(Disk(CliFiles(w), map[], d.marker, 5), [true, true, true, true, true], false)
  {
    var down, up := ActAll(w, d, c.host, c.scope, Manifest(Mcp), Undeploy), d.(tick := 3);
    assert down == Run(up, [true, true, true], false) by {
      var m := Manifest(Mcp);
      assert m[1..] == [Shipped(McpSkill), Shipped(McpAgent)] && m[1..][1..] == [Shipped(McpAgent)];
    }
    var p := w.roots.Base(c.host, c.scope);
    assert p + CliSkill.Relative() == w.roots.cwd + [".claude", "skills", "explore-codebase-cli", "SKILL.md"];
    assert p + CliAgent.Relative() == w.roots.cwd + [".claude", "agents", "explorer-rag-cli.md"];
    var mid := Disk(map[p + CliSkill.Relative() := w.package(CliSkill)], map[], d.marker, 4);
    assert Act(w, up, c.host, c.scope, Shipped(CliSkill), Deploy(command)) == Step(mid, Succeeded);
    assert p + CliAgent.Relative() !in mid.files by {
      if p + CliAgent.Relative() == p + CliSkill.Relative() { FilesApart(p, CliAgent, p, CliSkill); }
    }
    var end := Disk(CliFiles(w), map[], d.marker, 5);
    assert Act(w, mid, c.host, c.scope, Shipped(CliAgent), Deploy(command)) == Step(end, Succeeded);
    var n := Manifest(Cli);
    assert n[1..] == [Shipped(CliAgent)] && n[1..][1..] == [];
    assert ActAll(w, up, c.host, c.scope, n, Deploy(command)) == Run(end, [true, true], false);
    assert [c][1..] == [];
  }

  // Where the skill of the `mcp` surface cannot be removed, the move goes on.
  lemma StuckMove(w: World, d: Disk, c: Configured, command: string, q: Path, text: string)
    requires c == Configured(ClaudeCode, Project, Mcp) && q == w.roots.Base(ClaudeCode, Project) + McpSkill.Relative()
    requires d == Disk(map[q := text], map[], Some([c]), 0)
    requires w.io(1).Refused? && forall t :: 0 <= t < 5 && t != 1 ==> w.io(t).Works?
    ensures UpdateHosts(w, d, [c], Options(false, false, Some(Cli)), command)
         == Run(Disk(map[q := text] + CliFiles(w), map[], d.marker, 5), [true, false, true, true, true], false)
  {
    var p := w.roots.Base(c.host, c.scope);
    var skill', agent' := p + CliSkill.Relative(), p + CliAgent.Relative();
    assert skill' == w.roots.cwd + [".claude", "skills", "explore-codebase-cli", "SKILL.md"];
    assert agent' == w.roots.cwd + [".claude", "agents", "explorer-rag-cli.md"];
    assert q != skill' && q != agent' && skill' != agent' by {
      if q == skill' { FilesApart(p, McpSkill, p, CliSkill); }
      if q == agent' { FilesApart(p, McpSkill, p, CliAgent); }
      if skill' == agent' { FilesApart(p, CliSkill, p, CliAgent); }
    }
    hide Host.DirName, Host.McpConfig, Roots.Base, Roots.ConfigPath, File.Relative;
    StuckTeardown(w, d, c, q, text);
    var up := d.(tick := 3);
    var mid := up.(tick := 4, files := up.files[skill' := w.package(CliSkill)]);
    assert Act(w, up, c.host, c.scope, Shipped(CliSkill), Deploy(command)) == Step(mid, Succeeded);
    var end := mid.(tick := 5, files := mid.files[agent' := w.package(CliAgent)]);
    assert Act(w, mid, c.host, c.scope, Shipped(CliAgent), Deploy(command)) == Step(end, Succeeded);
    var n := Manifest(Cli);
    assert n[1..] == [Shipped(CliAgent)] && n[1..][1..] == [];
    assert ActAll(w, up, c.host, c.scope, n, Deploy(command)) == Run(end, [true, true], false);
    assert end.files == map[q := text] + CliFiles(w);
    hide Act, Manifest;
    assert [c][1..] == [];
  }

  lemma StuckTeardown(w: World, d: Disk, c: Configured, q: Path, text: string)
    requires c == Configured(ClaudeCode, Project, Mcp) && q == w.roots.Base(ClaudeCode, Project) + McpSkill.Relative()
    requires d == Disk(map[q := text], map[], Some([c]), 0)
    requires w.io(0).Works? && w.io(1).Refused? && w.io(2).Works?
    ensures ActAll(w, d, c.host, c.scope, Manifest(Mcp), Undeploy) == Run(d.(tick := 3), [true, false, true], false)
  {
    var p := w.roots.Base(c.host, c.scope);
    assert q != p + McpAgent.Relative() by {
      if q == p + McpAgent.Relative() { FilesApart(p, McpSkill, p, McpAgent); }
    }
    hide Host.DirName, Host.McpConfig, Roots.Base, Roots.ConfigPath, File.Relative;
    var m := Manifest(Mcp);
    assert m[1..] == [Shipped(McpSkill), Shipped(McpAgent)] && m[1..][1..] == [Shipped(McpAgent)] && m[1..][1..][1..] == [];
    assert Act(w, d, c.host, c.scope, Entry, Undeploy) == Step(d.(tick := 1), Succeeded);
    assert Act(w, d.(tick := 1), c.host, c.scope, Shipped(McpSkill), Undeploy) == Step(d.(tick := 2), Failed);
    assert Act(w, d.(tick := 2), c.host, c.scope, Shipped(McpAgent), Undeploy) == Step(d.(tick := 3), Succeeded);
  }

  ghost predicate StaysBehind(e: Disk, q: Path, calls: seq<Call>) {
    (forall i :: 0 <= i < |calls| ==> calls[i].options.chosen == Some(Cli)) ==> q in Later(e, calls).files
  }

  // A project that moves from `mcp` to `cli`, is recorded as `cli`, and keeps a file
  // of the `mcp` surface through all later updates to `cli`.
  lemma LeftoverExists()
    ensures exists w: World, d: Disk, o: Options, q: Path ::
              && Update(w, d, o, []).1.Finished? && ShippedAt(q, Mcp)
              && Update(w, d, o, []).0.marker == Some([Configured(ClaudeCode, Project, Cli)])
              && forall calls :: StaysBehind(Update(w, d, o, []).0, q, calls)
  {
    hide UpdateHosts, CliFiles, ShippedAt, Roots.Base;
    var c := Configured(ClaudeCode, Project, Mcp);
    var none: Option<string> := None;
    var w := World(Roots(["p"], ["h"]), s => Some("bin"), false, s => none, f => "text", t => if t == 1 then Refused else Works);
    var q := w.roots.Base(ClaudeCode, Project) + McpSkill.Relative();
    var d := Disk(map[q := "text"], map[], Some([c]), 0);
    var o := Options(false, false, Some(Cli));
    StuckMove(w, d, c, "bin", q, "text");
    StuckUpdate(w, d, c, q);
    IsShipped(w.roots.Base(ClaudeCode, Project), McpSkill);
    ShippedApart(q);
    var e := Update(w, d, o, []).0;
    hide Update;
    forall calls: seq<Call> ensures StaysBehind(e, q, calls) {
      if forall i :: 0 <= i < |calls| ==> calls[i].options.chosen == Some(Cli) {
        LeftoversStay(e, calls, Cli);
        assert At(e.files, q) == At(Later(e, calls).files, q);
      }
    }
  }

  lemma IsShipped(base: Path, f: File)
    ensures ShippedAt(base + f.Relative(), f.Of())
  {
  }

  lemma StuckUpdate(w: World, d: Disk, c: Configured, q: Path)
    requires c == Configured(ClaudeCode, Project, Mcp) && w.io(5).Works? && w.onPath(Cli) == Some("bin")
    requires d.marker == Some([c])
    requires var r := UpdateHosts(w, d, [c], Options(false, false, Some(Cli)), "bin"); !r.crashed && r.disk.tick == 5 && q in r.disk.files
    ensures var (e, out) := Update(w, d, Options(false, false, Some(Cli)), []);
            out.Finished? && e.marker == Some([Configured(ClaudeCode, Project, Cli)]) && q in e.files
  {
    hide UpdateHosts;
    assert c in [c] && Migrates(c, Some(Cli));
    assert AnyMigrates([c], Some(Cli));
    assert Targets([c], Some(Cli)) == [Configured(ClaudeCode, Project, Cli)];
  }

  // The other way round, any fresh host gets two files below its own directory and
  // an entry in the document that belongs to it and the scope.
  lemma LoneMoveBack(w: World, d: Disk, c: Configured, command: string)
    requires c.surface == Cli && d == Disk(map[], map[], Some([c]), 0)
    requires forall t :: 0 <= t < 5 ==> w.io(t).Works?
    ensures var root := if c.scope == Project then w.roots.cwd else w.roots.home;
            var dir := if c.host.ClaudeCode? then ".claude" else if c.host.QwenCode? then ".qwen" else ".gigacode";
            var document := if c.host.ClaudeCode? then [if c.scope == Project then ".mcp.json" else ".claude.json"] else [dir, "settings.json"];
            var files := map[root + [dir, "skills", "explore-codebase", "SKILL.md"] := w.package(McpSkill),
                             root + [dir, "agents", "explorer-rag-enhanced.md"] := w.package(McpAgent)];
            var configs := map[root + document := Object(Table(map["java-codebase-rag" := Stdio(command)]), map[])];
            UpdateHosts(w, d, [c], Options(false, false, Some(Mcp)), command)
            == Run(Disk(files, configs, d.marker, 5), [true, true, true, true, true], false)
  {
    var root := if c.scope == Project then w.roots.cwd else w.roots.home;
    var dir := if c.host.ClaudeCode? then ".claude" else if c.host.QwenCode? then ".qwen" else ".gigacode";
    var document := w.roots.ConfigPath(c.host, c.scope);
    assert document == root + if c.host.ClaudeCode? then [if c.scope == Project then ".mcp.json" else ".claude.json"] else [dir, "settings.json"];
    var p := w.roots.Base(c.host, c.scope);
    assert p == root + [dir];
    var skill, agent := p + McpSkill.Relative(), p + McpAgent.Relative();
    assert skill == root + [dir, "skills", "explore-codebase", "SKILL.md"];
    assert agent == root + [dir, "agents", "explorer-rag-enhanced.md"];
    hide Host.DirName, Host.McpConfig, Roots.Base, Roots.ConfigPath, File.Relative;
    assert skill != agent by {
      if skill == agent { FilesApart(p, McpSkill, p, McpAgent); }
    }
    MovesBack(w, d, c, command, document, skill, agent);
  }

  lemma MovesBack(w: World, d: Disk, c: Configured, command: string, document: Path, skill: Path, agent: Path)
    requires c.surface == Cli && d == Disk(map[], map[], Some([c]), 0)
    requires forall t :: 0 <= t < 5 ==> w.io(t).Works?
    requires document == w.roots.ConfigPath(c.host, c.scope) && skill != agent
    requires skill == w.roots.Base(c.host, c.scope) + McpSkill.Relative() && agent == w.roots.Base(c.host, c.scope) + McpAgent.Relative()
    ensures UpdateHosts(w, d, [c], Options(false, false, Some(Mcp)), command)
         == Run(Disk(map[skill := w.package(McpSkill), agent := w.package(McpAgent)],
                     map[document := Object(Table(map["java-codebase-rag" := Stdio(command)]), map[])], d.marker, 5),
                [true, true, true, true, true], false)
  {
    hide Host.DirName, Host.McpConfig, Roots.Base, Roots.ConfigPath, File.Relative;
    var down, up := ActAll(w, d, c.host, c.scope, Manifest(Cli), Undeploy), d.(tick := 2);
    assert down == Run(up, [true, true], false) by {
      assert Manifest(Cli)[1..] == [Shipped(CliAgent)];
    }
    var entry := Object(Table(map["java-codebase-rag" := Stdio(command)]), map[]);
    var first := d.(tick := 3, configs := map[document := entry]);
    assert Act(w, up, c.host, c.scope, Entry, Deploy(command)) == Step(first, Succeeded);
    var second := first.(tick := 4, files := map[skill := w.package(McpSkill)]);
    assert Act(w, first, c.host, c.scope, Shipped(McpSkill), Deploy(command)) == Step(second, Succeeded);
    var end := second.(tick := 5, files := map[skill := w.package(McpSkill), agent := w.package(McpAgent)]);
    assert Act(w, second, c.host, c.scope, Shipped(McpAgent), Deploy(command)) == Step(end, Succeeded);
    var n := Manifest(Mcp);
    assert n[1..] == [Shipped(McpSkill), Shipped(McpAgent)] && n[1..][1..] == [Shipped(McpAgent)] && n[1..][1..][1..] == [];
    assert ActAll(w, up, c.host, c.scope, n, Deploy(command)) == Run(end, [true, true, true], false);
    assert [c][1..] == [];
  }

  // A lost marker write is such a failure: this project moves from `mcp` to
  // `cli`, every artifact succeeds, and the marker still says `mcp`.
  lemma MarkerCanLie()
    ensures exists w: World, d: Disk, o: Options :: !o.dry && d.marker.Some? && Clean(Update(w, d, o, []).1)
                              && var e := Update(w, d, o, []).0; e.marker.Some? && !AllInstalled(w, e, e.marker.value)
  {
    hide UpdateHosts, CliFiles, Installed;
    var c := Configured(ClaudeCode, Project, Mcp);
    var none: Option<string> := None;
    var w := World(Roots(["p"], ["h"]), s => Some("bin"), false, s => none, f => "text", t => if t == 5 then Refused else Works);
    var d := Disk(map[], map[], Some([c]), 0);
    var o := Options(false, false, Some(Cli));
    LoneMove(w, d, c, "bin");
    assert c in [c] && Migrates(c, o.chosen);
    assert AnyMigrates([c], o.chosen);
    MarkerTrueExactly(w, d, o, []);
  }

  lemma {:induction false} ActAllQuiet(w: World, d: Disk, h: Host, scope: Scope, artifacts: seq<Artifact>, dry: bool)
    requires forall i :: 0 <= i < |artifacts| ==> Present(w, d, h, scope, artifacts[i])
    ensures var r := ActAll(w, d, h, scope, artifacts, Refresh(false, dry)); d.Same(r.disk) && !r.crashed
    decreases |artifacts|
  {
    if artifacts != [] {
      var s := Act(w, d, h, scope, artifacts[0], Refresh(false, dry));
      assert Present(w, d, h, scope, artifacts[0]);
      assert d.Same(s.disk) && !s.end.Crashed?;
      forall i | 0 <= i < |artifacts| - 1 ensures Present(w, s.disk, h, scope, artifacts[1..][i]) {
        assert Present(w, d, h, scope, artifacts[i + 1]);
      }
      ActAllQuiet(w, s.disk, h, scope, artifacts[1..], dry);
    }
  }

  lemma {:induction false} UpdateHostsQuiet(w: World, d: Disk, hosts: seq<Configured>, o: Options, command: string)
    requires !o.force && AllInstalled(w, d, hosts) && !AnyMigrates(hosts, o.chosen)
    ensures var r := UpdateHosts(w, d, hosts, o, command); d.Same(r.disk) && !r.crashed
    decreases |hosts|
  {
    hide ActAll, Present;
    if hosts != [] {
      var c := hosts[0];
      var e := UpdateHost(w, d, c, o, command).disk;
      assert Installed(w, d, c) && !Migrates(c, o.chosen);
      ManifestExactly(c.surface);
      ActAllQuiet(w, d, c.host, c.scope, Manifest(c.surface), o.dry);
      forall i | 0 <= i < |hosts| - 1 ensures Installed(w, e, hosts[1..][i]) {
        SameInstalled(w, d, e, hosts[i + 1]);
      }
      UpdateHostsQuiet(w, e, hosts[1..], o, command);
    }
  }

  lemma SameInstalled(w: World, d: Disk, e: Disk, c: Configured)
    requires Installed(w, d, c) && d.Same(e)
    ensures Installed(w, e, c)
  {
    forall a: Artifact | a.Of() == c.surface ensures Present(w, e, c.host, c.scope, a) {
      assert Present(w, d, c.host, c.scope, a);
    }
  }

  lemma QuietWhenInstalled(w: World, d: Disk, o: Options, scan: seq<Configured>)
    requires !o.force && AllInstalled(w, d, Detected(d, scan)) && !AnyMigrates(Detected(d, scan), o.chosen)
    ensures d.Same(Update(w, d, o, scan).0) && !Update(w, d, o, scan).1.Died?
  {
    UpdateHostsQuiet(w, d, Detected(d, scan), o, Binary(w, Detected(d, scan), o));
  }

  // Asking again for what a run without failures achieved and recorded changes
  // nothing, however the file system behaves the second time.
  lemma SecondRunChangesNothing(w: World, d: Disk, o: Options, scan: seq<Configured>, again: Options)
    requires !o.dry && d.marker.Some? && Clean(Update(w, d, o, scan).1)
    requires AnyMigrates(d.marker.value, o.chosen) ==>
               w.io(UpdateHosts(w, d, d.marker.value, o, Binary(w, d.marker.value, o)).disk.tick).Works?
    requires !again.force && again.chosen == o.chosen
    ensures var e := Update(w, d, o, scan).0; e.Same(Update(w, e, again, scan).0)
  {
    hide UpdateHosts, Installed, Removed, Contained;
    var (e, out) := Update(w, d, o, scan);
    var hosts := d.marker.value;
    MarkerTrueExactly(w, d, o, scan);
    HostsKeepMarker(w, d, hosts, o, Binary(w, hosts, o));
    assert !AnyMigrates(e.marker.value, o.chosen) by {
      if AnyMigrates(hosts, o.chosen) {
        assert e.marker.value == Targets(hosts, o.chosen);
      } else {
        assert e.marker == d.marker;
      }
    }
    QuietWhenInstalled(w, e, again, scan);
  }

  // ---- Without a marker ----

  // The scan for installations older than the marker: exactly the places whose
  // server table holds our entry.
  ghost predicate Scanned(w: World, d: Disk, scan: seq<Configured>) {
    && (forall c :: c in scan ==> c.surface == Mcp)
    && forall h, scope :: Configured(h, scope, Mcp) in scan <==> !NoEntry(At(d.configs, w.roots.ConfigPath(h, scope)))
  }

  // The next run finds every host again, and installed on the surface it takes it
  // to be on.
  ghost predicate KeepsTrack(w: World, e: Disk, hosts: seq<Configured>, next: seq<Configured>) {
    && (forall c :: c in hosts ==> exists n :: n in next && n.host == c.host && n.scope == c.scope)
    && AllInstalled(w, e, next)
  }

  // Without a marker, a run without failures keeps track of the hosts exactly when
  // none had to migrate or the marker write went through.  If neither, no entry is
  // left to find them by.
  lemma ScanTrueExactly(w: World, d: Disk, o: Options, scan: seq<Configured>, rescan: seq<Configured>)
    requires !o.dry && d.marker.None? && Clean(Update(w, d, o, scan).1) && Scanned(w, d, scan)
    requires Scanned(w, Update(w, d, o, scan).0, rescan)
    ensures var e := Update(w, d, o, scan).0;
            var written := w.io(UpdateHosts(w, d, scan, o, Binary(w, scan, o)).disk.tick).Works?;
            && (KeepsTrack(w, e, scan, Detected(e, rescan)) <==> !AnyMigrates(scan, o.chosen) || written)
            && (AnyMigrates(scan, o.chosen) && !written ==> Detected(e, rescan) == [])
  {
    hide UpdateHosts, Installed, Removed, Contained, NoEntry;
    var (e, out) := Update(w, d, o, scan);
    CleanRunInstalls(w, d, o, scan);
    HostsKeepMarker(w, d, scan, o, Binary(w, scan, o));
    if !AnyMigrates(scan, o.chosen) {
      RefreshedFound(w, d, o, scan, rescan);
    } else if e.marker.Some? {
      assert forall i :: 0 <= i < |scan| ==> out.updated[i] == Target(scan[i], o.chosen) && Installed(w, e, out.updated[i]);
      forall c | c in scan ensures exists n :: n in out.updated && n.host == c.host && n.scope == c.scope {
        var i :| 0 <= i < |scan| && scan[i] == c;
        assert out.updated[i] in out.updated;
      }
    } else {
      MigratedLost(w, d, o, scan, rescan);
    }
  }

  lemma EntryInstalled(w: World, e: Disk, c: Configured)
    requires c.surface == Mcp
    ensures Installed(w, e, c) ==> !NoEntry(At(e.configs, w.roots.ConfigPath(c.host, c.scope)))
    ensures Removed(w, e, c) ==> NoEntry(At(e.configs, w.roots.ConfigPath(c.host, c.scope)))
  {
    assert Entry.Of() == Mcp;
    if Installed(w, e, c) { assert Present(w, e, c.host, c.scope, Entry); }
    if Removed(w, e, c) { assert Gone(w, e, c.host, c.scope, Entry); }
  }

  // An entry that is there after a run was there before, as the scan found it.
  lemma FoundBefore(w: World, d: Disk, e: Disk, scan: seq<Configured>, h: Host, scope: Scope)
    requires Scanned(w, d, scan) && Contained(w, scan, d, e)
    requires !NoEntry(At(e.configs, w.roots.ConfigPath(h, scope)))
    ensures Configured(h, scope, Mcp) in scan
  {
    hide NoEntry;
    var p := w.roots.ConfigPath(h, scope);
    if At(d.configs, p) != At(e.configs, p) {
      assert OwnConfig(w, scan, p);
      var c :| c in scan && p == w.roots.ConfigPath(c.host, c.scope);
      assert c == Configured(c.host, c.scope, Mcp);
    }
  }

  lemma RefreshedFound(w: World, d: Disk, o: Options, scan: seq<Configured>, rescan: seq<Configured>)
    requires !o.dry && d.marker.None? && Clean(Update(w, d, o, scan).1) && Scanned(w, d, scan)
    requires Scanned(w, Update(w, d, o, scan).0, rescan) && !AnyMigrates(scan, o.chosen)
    ensures var e := Update(w, d, o, scan).0; e.marker.None? && KeepsTrack(w, e, scan, rescan)
  {
    hide UpdateHosts, Installed, Removed, Contained, NoEntry;
    var (e, out) := Update(w, d, o, scan);
    CleanRunInstalls(w, d, o, scan);
    HostsKeepMarker(w, d, scan, o, Binary(w, scan, o));
    EveryRunIsContained(w, d, o, scan);
    assert e.(marker := d.marker) == e;
    forall c | c in scan ensures Installed(w, e, c) && c in rescan {
      var i :| 0 <= i < |scan| && scan[i] == c;
      assert !Migrates(scan[i], o.chosen);
      EntryInstalled(w, e, c);
      assert c == Configured(c.host, c.scope, Mcp);
    }
    forall i | 0 <= i < |rescan| ensures Installed(w, e, rescan[i]) {
      var c := rescan[i];
      assert c == Configured(c.host, c.scope, Mcp);
      FoundBefore(w, d, e, scan, c.host, c.scope);
    }
  }

  lemma MigratedLost(w: World, d: Disk, o: Options, scan: seq<Configured>, rescan: seq<Configured>)
    requires !o.dry && d.marker.None? && Clean(Update(w, d, o, scan).1) && Scanned(w, d, scan)
    requires Scanned(w, Update(w, d, o, scan).0, rescan)
    requires AnyMigrates(scan, o.chosen) && Update(w, d, o, scan).0.marker.None?
    ensures rescan == []
  {
    hide UpdateHosts, Installed, Removed, Contained, NoEntry;
    var e := Update(w, d, o, scan).0;
    CleanRunInstalls(w, d, o, scan);
    EveryRunIsContained(w, d, o, scan);
    assert e.(marker := d.marker) == e;
    if rescan != [] {
      var c := rescan[0];
      assert c == Configured(c.host, c.scope, Mcp);
      FoundBefore(w, d, e, scan, c.host, c.scope);
      var i :| 0 <= i < |scan| && scan[i] == c;
      var m :| m in scan && Migrates(m, o.chosen);
      assert Migrates(scan[i], o.chosen);
      EntryInstalled(w, e, c);
    }
  }

  // Asking again changes nothing here either, found or not.
  lemma RescanChangesNothing(w: World, d: Disk, o: Options, scan: seq<Configured>, rescan: seq<Configured>, again: Options)
    requires !o.dry && d.marker.None? && Clean(Update(w, d, o, scan).1) && Scanned(w, d, scan)
    requires Scanned(w, Update(w, d, o, scan).0, rescan)
    requires !again.force && again.chosen == o.chosen
    ensures var e := Update(w, d, o, scan).0; e.Same(Update(w, e, again, rescan).0)
  {
    hide UpdateHosts, Installed, Removed, Contained, NoEntry;
    var (e, out) := Update(w, d, o, scan);
    HostsKeepMarker(w, d, scan, o, Binary(w, scan, o));
    ScanTrueExactly(w, d, o, scan, rescan);
    if Detected(e, rescan) != [] {
      assert AllInstalled(w, e, Detected(e, rescan));
      assert !AnyMigrates(Detected(e, rescan), o.chosen) by {
        if AnyMigrates(scan, o.chosen) {
          assert e.marker.value == Targets(scan, o.chosen);
        } else {
          assert scan[0] in scan && !Migrates(scan[0], o.chosen);
        }
      }
      QuietWhenInstalled(w, e, again, rescan);
    }
  }

  // ---- When a run is bound to succeed ----

  // Nothing here stands in the way of deploying the artifact.
  ghost predicate Clear(w: World, d: Disk, h: Host, scope: Scope, a: Artifact) {
    match a
    case Entry => Usable(At(d.configs, w.roots.ConfigPath(h, scope)))
    case Shipped(f) => At(d.files, w.roots.Base(h, scope) + f.Relative()) in {None, Some(w.package(f))}
  }

  ghost predicate StaysClear(w: World, d: Disk, e: Disk) {
    forall h, scope, a :: Clear(w, d, h, scope, a) ==> Clear(w, e, h, scope, a)
  }

  ghost predicate NothingBreaks(w: World) {
    forall t :: w.io(t).Works?
  }

  // A binary for every entry to be written, and no foreign content in its place.
  ghost predicate Feasible(w: World, d: Disk, h: Host, scope: Scope, a: Artifact, act: Action) {
    && (a.Entry? ==> Clear(w, d, h, scope, a) && (act.Refresh? ==> w.onPath(Mcp).Some?))
    && (act.Deploy? ==> Clear(w, d, h, scope, a))
  }

  lemma ActSucceeds(w: World, d: Disk, h: Host, scope: Scope, a: Artifact, act: Action)
    requires NothingBreaks(w) && Feasible(w, d, h, scope, a, act)
    ensures Act(w, d, h, scope, a, act).end.Succeeded?
    ensures StaysClear(w, d, Act(w, d, h, scope, a, act).disk)
  {
    var e := Act(w, d, h, scope, a, act).disk;
    assert w.io(d.tick).Works?;
    forall k, sc, b | Clear(w, d, k, sc, b) ensures Clear(w, e, k, sc, b) {
      if a.Shipped? && b.Shipped? && w.roots.Base(k, sc) + b.file.Relative() == w.roots.Base(h, scope) + a.file.Relative() {
        FilesApart(w.roots.Base(k, sc), b.file, w.roots.Base(h, scope), a.file);
      }
    }
  }

  lemma {:induction false} ActAllSucceeds(w: World, d: Disk, h: Host, scope: Scope, artifacts: seq<Artifact>, act: Action)
    requires NothingBreaks(w)
    requires forall i :: 0 <= i < |artifacts| ==> Feasible(w, d, h, scope, artifacts[i], act)
    ensures var r := ActAll(w, d, h, scope, artifacts, act);
            r.AllSucceeded() && |r.results| == |artifacts| && StaysClear(w, d, r.disk)
    decreases |artifacts|
  {
    hide Act, NothingBreaks, Clear;
    if artifacts != [] {
      var e := Act(w, d, h, scope, artifacts[0], act).disk;
      ActSucceeds(w, d, h, scope, artifacts[0], act);
      forall i | 0 <= i < |artifacts| - 1 ensures Feasible(w, e, h, scope, artifacts[1..][i], act) {
        assert Feasible(w, d, h, scope, artifacts[i + 1], act);
      }
      ActAllSucceeds(w, e, h, scope, artifacts[1..], act);
    }
  }

  // Nothing stands in the way of updating this host.
  ghost predicate HostFeasible(w: World, d: Disk, c: Configured, chosen: Option<Surface>) {
    if Migrates(c, chosen) then
      Clear(w, d, c.host, c.scope, Entry) && forall a: Artifact :: a.Of() == chosen.value ==> Clear(w, d, c.host, c.scope, a)
    else c.surface == Mcp ==> Clear(w, d, c.host, c.scope, Entry) && w.onPath(Mcp).Some?
  }

  lemma UpdateHostSucceeds(w: World, d: Disk, c: Configured, o: Options, command: string)
    requires NothingBreaks(w) && HostFeasible(w, d, c, o.chosen)
    ensures var r := UpdateHost(w, d, c, o, command); r.AllSucceeded() && StaysClear(w, d, r.disk)
  {
    hide ActAll, NothingBreaks, Clear;
    ManifestExactly(c.surface);
    if !Migrates(c, o.chosen) {
      ActAllSucceeds(w, d, c.host, c.scope, Manifest(c.surface), Refresh(o.force, o.dry));
    } else if !o.dry {
      var m := Manifest(o.chosen.value);
      ManifestExactly(o.chosen.value);
      ActAllSucceeds(w, d, c.host, c.scope, Manifest(c.surface), Undeploy);
      var t := ActAll(w, d, c.host, c.scope, Manifest(c.surface), Undeploy);
      assert forall i :: 0 <= i < |m| ==> Clear(w, d, c.host, c.scope, m[i]);
      ActAllSucceeds(w, t.disk, c.host, c.scope, m, Deploy(command));
    }
  }

  lemma {:induction false} UpdateHostsSucceed(w: World, d: Disk, hosts: seq<Configured>, o: Options, command: string)
    requires NothingBreaks(w) && forall i :: 0 <= i < |hosts| ==> HostFeasible(w, d, hosts[i], o.chosen)
    ensures UpdateHosts(w, d, hosts, o, command).AllSucceeded()
    decreases |hosts|
  {
    hide UpdateHost, NothingBreaks, Clear;
    if hosts != [] {
      var r := UpdateHost(w, d, hosts[0], o, command);
      UpdateHostSucceeds(w, d, hosts[0], o, command);
      forall i | 0 <= i < |hosts| - 1 ensures HostFeasible(w, r.disk, hosts[1..][i], o.chosen) {
        assert HostFeasible(w, d, hosts[i + 1], o.chosen);
      }
      UpdateHostsSucceed(w, r.disk, hosts[1..], o, command);
    }
  }

  // With a working file system, the binaries in place and nothing foreign in the
  // way, every host's update succeeds.
  lemma FeasibleRunIsClean(w: World, d: Disk, o: Options, scan: seq<Configured>)
    requires NothingBreaks(w) && Detected(d, scan) != []
    requires forall i :: 0 <= i < |Detected(d, scan)| ==> HostFeasible(w, d, Detected(d, scan)[i], o.chosen)
    requires AnyMigrates(Detected(d, scan), o.chosen) ==> w.DeployCommand(o.chosen.value).Some?
    ensures Clean(Update(w, d, o, scan).1)
  {
    hide HostFeasible, NothingBreaks;
    UpdateHostsSucceed(w, d, Detected(d, scan), o, Binary(w, Detected(d, scan), o));
  }

  // ---- The installer itself ----

  // One more artifact done: its result joins those so far.
  lemma ActAllStep(w: World, d: Disk, h: Host, scope: Scope, m: seq<Artifact>, i: nat, act: Action, results: seq<bool>)
    requires i < |m|
    ensures var s := Act(w, d, h, scope, m[i], act);
            ActAll(w, d, h, scope, m[i..], act).After(results)
            == if s.end.Crashed? then Run(s.disk, results, true)
               else ActAll(w, s.disk, h, scope, m[i + 1..], act).After(results + [s.end.Succeeded?])
  {
    var s := Act(w, d, h, scope, m[i], act);
    assert m[i..][0] == m[i] && m[i..][1..] == m[i + 1..];
    var rest := ActAll(w, s.disk, h, scope, m[i + 1..], act).results;
    assert results + ([s.end.Succeeded?] + rest) == results + [s.end.Succeeded?] + rest;
    assert results + [] == results;
  }

  lemma ActAllEnd(w: World, d: Disk, h: Host, scope: Scope, m: seq<Artifact>, act: Action, results: seq<bool>)
    ensures ActAll(w, d, h, scope, m[|m|..], act).After(results) == Run(d, results, false)
  {
    assert results + [] == results;
  }

  // One more host done.
  lemma UpdateHostsStep(w: World, d: Disk, hosts: seq<Configured>, i: nat, o: Options, command: string, results: seq<bool>)
    requires i < |hosts|
    ensures var r := UpdateHost(w, d, hosts[i], o, command);
            UpdateHosts(w, d, hosts[i..], o, command).After(results)
            == if r.crashed then r.After(results)
               else UpdateHosts(w, r.disk, hosts[i + 1..], o, command).After(results + r.results)
  {
    var r := UpdateHost(w, d, hosts[i], o, command);
    assert hosts[i..][0] == hosts[i] && hosts[i..][1..] == hosts[i + 1..];
    var rest := UpdateHosts(w, r.disk, hosts[i + 1..], o, command).results;
    assert results + (r.results + rest) == results + r.results + rest;
  }

  lemma UpdateHostsEnd(w: World, d: Disk, hosts: seq<Configured>, o: Options, command: string, results: seq<bool>)
    ensures UpdateHosts(w, d, hosts[|hosts|..], o, command).After(results) == Run(d, results, false)
  {
    assert results + [] == results;
  }

  lemma AnyMigratesStep(hosts: seq<Configured>, i: nat, chosen: Option<Surface>)
    requires i < |hosts|
    ensures AnyMigrates(hosts[..i + 1], chosen) <==> AnyMigrates(hosts[..i], chosen) || Migrates(hosts[i], chosen)
  {
    assert hosts[..i + 1] == hosts[..i] + [hosts[i]];
  }

  class Machine {
    var files: map<Path, string>
    var configs: map<Path, Config>
    var marker: Option<seq<Configured>>
    var tick: nat

    constructor (files: map<Path, string>, configs: map<Path, Config>, marker: Option<seq<Configured>>)
      ensures Now() == Disk(files, configs, marker, 0)
    {
      this.files, this.configs, this.marker, tick := files, configs, marker, 0;
    }

    function Now(): Disk
      reads this
    {
      Disk(files, configs, marker, tick)
    }

    method NextIo(w: World) returns (io: Io)
      modifies `tick
      ensures io == w.io(old(tick)) && tick == old(tick) + 1
    {
      io := w.io(tick);
      tick := tick + 1;
    }

    // `merge_mcp_config`, with the guards of its two callers.
    method WriteEntry(w: World, p: Path, command: string, force: bool, dry: bool) returns (ok: bool)
      modifies this
      ensures Step(Now(), if ok then Succeeded else Failed) == PutEntry(w, old(Now()), p, command, force, dry)
    {
      var io := NextIo(w);
      if io.Refused? {
        return false;
      }
      var config := if p in configs then configs[p] else Object(Absent, map[]);
      if !config.Object? {
        return false;
      }
      if config.servers.Absent? {
        config := config.(servers := Table(map[]));
      }
      if config.servers.NotTable? {
        return false;
      }
      var servers, entry := config.servers.table, Stdio(command);
      if SERVER in servers && servers[SERVER] == entry && !force {
        return true;
      }
      if dry {
        return true;
      }
      if io.Torn? {
        return false;
      }
      configs := configs[p := config.(servers := Table(servers[SERVER := entry]))];
      return true;
    }

    method RemoveMcpEntry(w: World, p: Path) returns (end: End)
      modifies this
      ensures Step(Now(), end) == DropEntry(w, old(Now()), p)
    {
      var io := NextIo(w);
      if p !in configs {
        return Succeeded;
      }
      var config := configs[p];
      if io.Refused? || config.Garbled? {
        return Failed;
      }
      if config.NotObject? {
        return Crashed;
      }
      if !config.servers.Table? || SERVER !in config.servers.table {
        return Succeeded;
      }
      var servers := config.servers.table - {SERVER};
      if io.Torn? {
        return Failed;
      }
      configs := configs[p := config.(servers := if |servers| == 0 then Absent else Table(servers))];
      return Succeeded;
    }

    method RemoveArtifactFile(w: World, p: Path) returns (ok: bool)
      modifies this
      ensures Step(Now(), if ok then Succeeded else Failed) == DropFile(w, old(Now()), p)
    {
      var io := NextIo(w);
      if p !in files {
        return true;
      }
      if !io.Works? {
        return false;
      }
      files := files - {p};
      return true;
    }

    method WriteText(io: Io, p: Path, text: string) returns (ok: bool)
      modifies `files
      ensures Step(Now(), if ok then Succeeded else Failed) == WriteFile(io, old(Now()), p, text)
    {
      if io.Works? {
        files := files[p := text];
        return true;
      }
      if io.Torn? && io.leftover.Some? {
        files := files[p := io.leftover.value];
      }
      return false;
    }

    method DeployFile(w: World, p: Path, content: string) returns (ok: bool)
      modifies this
      ensures Step(Now(), if ok then Succeeded else Failed) == NewFile(w, old(Now()), p, content)
    {
      var io := NextIo(w);
      if io.Refused? {
        return false;
      }
      if p in files {
        return files[p] == content;
      }
      ok := WriteText(io, p, content);
    }

    method RefreshFile(w: World, p: Path, content: string, force: bool, dry: bool) returns (ok: bool)
      modifies this
      ensures Step(Now(), if ok then Succeeded else Failed) == RefreshedFile(w, old(Now()), p, content, force, dry)
    {
      var io := NextIo(w);
      if io.Refused? {
        return false;
      }
      if p in files {
        if files[p] == content && !force {
          return true;
        }
        if dry {
          return true;
        }
      } else if dry {
        return true;
      }
      ok := WriteText(io, p, content);
    }

    method UndeploySurface(w: World, h: Host, scope: Scope, surface: Surface) returns (results: seq<bool>, crashed: bool)
      modifies this
      ensures Run(Now(), results, crashed) == ActAll(w, old(Now()), h, scope, Manifest(surface), Undeploy)
    {
      hide ActAll, PutEntry, DropEntry, DropFile, NewFile, RefreshedFile, Disk.Same;
      results, crashed := [], false;
      var manifest := Manifest(surface);
      for i := 0 to |manifest|
        invariant ActAll(w, old(Now()), h, scope, manifest, Undeploy)
               == ActAll(w, Now(), h, scope, manifest[i..], Undeploy).After(results)
      {
        ActAllStep(w, Now(), h, scope, manifest, i, Undeploy, results);
        if manifest[i].Entry? {
          var end := RemoveMcpEntry(w, w.roots.ConfigPath(h, scope));
          if end.Crashed? {
            return results, true;
          }
          results := results + [end.Succeeded?];
        } else {
          var ok := RemoveArtifactFile(w, w.roots.Base(h, scope) + manifest[i].file.Relative());
          results := results + [ok];
        }
      }
      ActAllEnd(w, Now(), h, scope, manifest, Undeploy, results);
    }

    method DeployArtifacts(w: World, h: Host, scope: Scope, surface: Surface, command: string) returns (results: seq<bool>)
      modifies this
      ensures Run(Now(), results, false) == ActAll(w, old(Now()), h, scope, Manifest(surface), Deploy(command))
    {
      hide ActAll, PutEntry, DropEntry, DropFile, NewFile, RefreshedFile, Disk.Same;
      results := [];
      var manifest := Manifest(surface);
      for i := 0 to |manifest|
        invariant ActAll(w, old(Now()), h, scope, manifest, Deploy(command))
               == ActAll(w, Now(), h, scope, manifest[i..], Deploy(command)).After(results)
      {
        ActAllStep(w, Now(), h, scope, manifest, i, Deploy(command), results);
        var ok;
        if manifest[i].Entry? {
          ok := WriteEntry(w, w.roots.ConfigPath(h, scope), command, false, false);
        } else {
          ok := DeployFile(w, w.roots.Base(h, scope) + manifest[i].file.Relative(), w.package(manifest[i].file));
        }
        results := results + [ok];
      }
      ActAllEnd(w, Now(), h, scope, manifest, Deploy(command), results);
    }

    method RefreshMcpConfig(w: World, p: Path, force: bool, dry: bool) returns (ok: bool)
      modifies this
      ensures Step(Now(), if ok then Succeeded else Failed)
           == if w.onPath(Mcp).None? then Step(old(Now()).(tick := old(tick) + 1), Failed)
              else PutEntry(w, old(Now()), p, w.onPath(Mcp).value, force, dry)
    {
      if w.onPath(Mcp).None? {
        tick := tick + 1;
        return false;
      }
      ok := WriteEntry(w, p, w.onPath(Mcp).value, force, dry);
    }

    method RefreshArtifacts(w: World, h: Host, scope: Scope, surface: Surface, force: bool, dry: bool) returns (results: seq<bool>)
      modifies this
      ensures Run(Now(), results, false) == ActAll(w, old(Now()), h, scope, Manifest(surface), Refresh(force, dry))
    {
      hide ActAll, PutEntry, DropEntry, DropFile, NewFile, RefreshedFile, Disk.Same;
      results := [];
      var manifest := Manifest(surface);
      for i := 0 to |manifest|
        invariant ActAll(w, old(Now()), h, scope, manifest, Refresh(force, dry))
               == ActAll(w, Now(), h, scope, manifest[i..], Refresh(force, dry)).After(results)
      {
        ActAllStep(w, Now(), h, scope, manifest, i, Refresh(force, dry), results);
        var ok;
        if manifest[i].Entry? {
          ok := RefreshMcpConfig(w, w.roots.ConfigPath(h, scope), force, dry);
        } else {
          ok := RefreshFile(w, w.roots.Base(h, scope) + manifest[i].file.Relative(), w.package(manifest[i].file), force, dry);
        }
        results := results + [ok];
      }
      ActAllEnd(w, Now(), h, scope, manifest, Refresh(force, dry), results);
    }

    // One turn of the host loop: tear down and deploy, or refresh.
    method UpdateConfigured(w: World, c: Configured, o: Options, command: string)
      returns (results: seq<bool>, target: Configured, crashed: bool)
      modifies this
      ensures Run(Now(), results, crashed) == UpdateHost(w, old(Now()), c, o, command)
      ensures target == Target(c, o.chosen)
    {
      hide ActAll, Manifest;
      results, target, crashed := [], c, false;
      if o.chosen.Some? && c.surface != o.chosen.value {
        target := c.(surface := o.chosen.value);
        if o.dry {
          return;
        }
        results, crashed := UndeploySurface(w, c.host, c.scope, c.surface);
        if crashed {
          return;
        }
        var deployed := DeployArtifacts(w, c.host, c.scope, o.chosen.value, command);
        results := results + deployed;
      } else {
        results := RefreshArtifacts(w, c.host, c.scope, c.surface, o.force, o.dry);
      }
    }

    method UpdateConfiguredHosts(w: World, hosts: seq<Configured>, o: Options, command: string)
      returns (results: seq<bool>, updated: seq<Configured>, migrated: bool, crashed: bool)
      modifies this
      ensures var r := UpdateHosts(w, old(Now()), hosts, o, command);
              Now() == r.disk && crashed == r.crashed && (!crashed ==> results == r.results)
      ensures !crashed ==> updated == Targets(hosts, o.chosen) && migrated == AnyMigrates(hosts, o.chosen)
    {
      hide UpdateHost, UpdateHosts;
      results, updated, migrated, crashed := [], [], false, false;
      ghost var whole := UpdateHosts(w, Now(), hosts, o, command);
      assert hosts[0..] == hosts;
      assert whole.After([]) == whole;
      for i := 0 to |hosts|
        invariant whole == UpdateHosts(w, Now(), hosts[i..], o, command).After(results)
        invariant updated == Targets(hosts, o.chosen)[..i]
        invariant migrated == AnyMigrates(hosts[..i], o.chosen)
        invariant !crashed
      {
        UpdateHostsStep(w, Now(), hosts, i, o, command, results);
        var more, target;
        more, target, crashed := UpdateConfigured(w, hosts[i], o, command);
        if crashed {
          return;
        }
        results, updated := results + more, updated + [target];
        migrated := migrated || target != hosts[i];
        AnyMigratesStep(hosts, i, o.chosen);
      }
      UpdateHostsEnd(w, Now(), hosts, o, command, results);
      assert hosts[..|hosts|] == hosts;
    }

    method RunUpdate(w: World, o: Options, scan: seq<Configured>) returns (out: Outcome)
      modifies this
      ensures (Now(), out) == Update(w, old(Now()), o, scan)
    {
      hide UpdateHosts, Targets;
      var hosts := if marker.Some? then marker.value else scan;
      if |hosts| == 0 {
        return NoHosts;
      }
      var needed := o.chosen.Some? && exists c :: c in hosts && c.surface != o.chosen.value;
      var command := "";
      if needed && !o.dry {
        var binary := w.DeployCommand(o.chosen.value);
        if binary.None? {
          return NoBinary;
        }
        command := binary.value;
      }
      assert needed == AnyMigrates(hosts, o.chosen);
      var results, updated, migrated, crashed := UpdateConfiguredHosts(w, hosts, o, command);
      if crashed {
        return Died;
      }
      if migrated && !o.dry {
        var io := NextIo(w);
        if io.Works? {
          marker := Some(updated);
        }
      }
      return Finished(results, updated);
    }
  }

}
