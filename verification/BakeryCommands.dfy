/**
 * Translation of Bakery commands into tc commands: MQ setup, sites, circuits and pruning.
 * Rates are real numbers in Mbps; SQM tokens are represented by what they are computed from.
 */
module BakeryCommands {
  import opened Common
  import opened TcKernel
  import opened QueueMath

  datatype LazyMode = No | Htb | Full

  datatype Config = Config(isp: string, internet: string, onAStick: bool, observe: bool, lazy: LazyMode,
                           downlink: nat, uplink: nat)

  datatype Mode = Builder | LiveUpdate

  datatype SiteParams = SiteParams(parent: Handle, upParent: Handle, minor: nat,
                                   dlMin: real, ulMin: real, dlMax: real, ulMax: real)

  datatype CircuitParams = CircuitParams(parent: Handle, upParent: Handle, minor: nat,
                                         dlMin: real, ulMin: real, dlMax: real, ulMax: real,
                                         major: nat, upMajor: nat,
                                         downHandle: Option<nat>, upHandle: Option<nat>, override: Option<string>)

  // ----- Per-direction override tokens -----

  predicate Space(c: char) {
    c == ' ' || c == '\t' || c == '\n' || c == '\r'
  }

  function TrimLeft(s: string): (r: string) {
    if s != [] && Space(s[0]) then TrimLeft(s[1..]) else s
  }

  function TrimRight(s: string): (r: string) {
    if s != [] && Space(s[|s| - 1]) then TrimRight(s[..|s| - 1]) else s
  }

  function Trim(s: string): (r: string) {
    TrimRight(TrimLeft(s))
  }

  function SlashAt(s: string): (i: nat)
    ensures i <= |s| && (i < |s| ==> s[i] == '/')
  {
    if s == [] || s[0] == '/' then 0 else 1 + SlashAt(s[1..])
  }

  function Token(s: string): (r: Option<string>) {
    if s == [] then None else Some(s)
  }

  /** A single token serves both directions; "down/up" is split and trimmed, an empty side is unset. */
  function SplitOverride(override: Option<string>): (r: (Option<string>, Option<string>)) {
    if override.None? then (None, None)
    else
      var s := override.value;
      var i := SlashAt(s);
      if i == |s| then (Some(s), Some(s))
      else (Token(Trim(s[..i])), Token(Trim(s[i + 1..])))
  }

  /** An override without a slash serves both directions; otherwise the first slash divides it. */
  lemma {:induction false} OverrideSides(down: string, up: string)
    requires '/' !in down
    ensures SplitOverride(Some(down)) == (Some(down), Some(down))
    ensures SplitOverride(Some(down + "/" + up)) == (Token(Trim(down)), Token(Trim(up)))
  {
    FirstSlash(down, up);
    var s := down + "/" + up;
    assert s[..|down|] == down && s[|down| + 1..] == up;
  }

  lemma {:induction false} FirstSlash(down: string, up: string)
    requires '/' !in down
    ensures SlashAt(down) == |down| && SlashAt(down + "/" + up) == |down|
  {
    if down == [] {
    } else {
      FirstSlash(down[1..], up);
      assert (down + "/" + up)[1..] == down[1..] + "/" + up;
    }
  }

  predicate Blank(s: string) {
    forall c :: c in s ==> Space(c)
  }

  /** Trimming takes blanks off both ends, and all of them. */
  lemma {:induction false} TrimIs(a: string, s: string, b: string)
    requires Blank(a) && Blank(b) && (s != [] ==> !Space(s[0]) && !Space(s[|s| - 1]))
    ensures Trim(a + s + b) == s
  {
    TrimLeftIs(a, s + b);
    assert a + s + b == a + (s + b);
    if s == [] {
      assert s + b == b && b + [] == b;
      TrimLeftIs(b, []);
    } else {
      TrimRightIs(s, b);
    }
  }

  lemma {:induction false} TrimLeftIs(a: string, s: string)
    requires Blank(a)
    ensures TrimLeft(a + s) == TrimLeft(s)
  {
    if a == [] {
      assert a + s == s;
    } else {
      assert (a + s)[1..] == a[1..] + s;
      TrimLeftIs(a[1..], s);
    }
  }

  lemma {:induction false} TrimRightIs(s: string, b: string)
    requires Blank(b) && s != [] && !Space(s[|s| - 1])
    ensures TrimRight(s + b) == s
  {
    if b == [] {
      assert s + b == s;
    } else {
      assert (s + b)[..|s + b| - 1] == s + b[..|b| - 1];
      TrimRightIs(s, b[..|b| - 1]);
    }
  }

  function LowerAscii(s: string): (r: string) {
    if s == [] then []
    else [if 'A' <= s[0] <= 'Z' then ((s[0] as int) + 32) as char else s[0]] + LowerAscii(s[1..])
  }

  predicate IsNone(token: Option<string>) {
    token.Some? && LowerAscii(token.value) == "none"
  }

  /** "none" in any letter case turns a direction off. */
  lemma NoneInAnyCase(s: string)
    ensures IsNone(Some(s)) <==>
      && |s| == 4 && (s[0] == 'n' || s[0] == 'N') && (s[1] == 'o' || s[1] == 'O')
      && (s[2] == 'n' || s[2] == 'N') && (s[3] == 'e' || s[3] == 'E')
  {
    LowerPointwise(s);
    if |s| == 4 {
      var t := LowerAscii(s);
      assert t == [t[0], t[1], t[2], t[3]];
    }
  }

  lemma {:induction false} LowerPointwise(s: string)
    ensures |LowerAscii(s)| == |s|
    ensures forall i :: 0 <= i < |s| ==>
      LowerAscii(s)[i] == if 'A' <= s[i] <= 'Z' then ((s[i] as int) + 32) as char else s[i]
  {
    if s == [] {
    } else {
      LowerPointwise(s[1..]);
    }
  }

  /** f32 as u64: truncation, negative values become 0. */
  function AsU64(x: real): (n: nat)
    ensures x >= 0.0 ==> n as real <= x < n as real + 1.0
    ensures x < 0.0 ==> n == 0
  {
    if x < 0.0 then 0 else x.Floor
  }

  // ----- Sites and circuits -----

  function Spec(rate: real, ceil: real, capacity: nat): (s: ClassSpec) {
    ClassSpec(rate, ceil, Some(3), Quantum(AsU64(ceil), R2q(capacity)))
  }

  function AddSite(cfg: Config, p: SiteParams): (r: Option<seq<Cmd>>) {
    if cfg.observe then None
    else Some([
      PutClass(cfg.isp, p.parent, Handle(p.parent.major, p.minor), Spec(p.dlMin, p.dlMax, cfg.downlink)),
      PutClass(cfg.internet, p.upParent, Handle(p.upParent.major, p.minor), Spec(p.ulMin, p.ulMax, cfg.uplink))
    ])
  }

  predicate DoHtb(mode: Mode, lazy: LazyMode) {
    mode.Builder? || lazy.Full?
  }

  predicate DoSqm(mode: Mode, lazy: LazyMode) {
    if mode.Builder? then !lazy.Htb? else !lazy.No?
  }

  function DownClass(cfg: Config, c: CircuitParams): (r: Cmd) {
    PutClass(cfg.isp, c.parent, Handle(c.major, c.minor), Spec(c.dlMin, c.dlMax, cfg.downlink))
  }

  function UpClass(cfg: Config, c: CircuitParams): (r: Cmd) {
    PutClass(cfg.internet, c.upParent, Handle(c.upMajor, c.minor), Spec(c.ulMin, c.ulMax, cfg.uplink))
  }

  function DownLeaf(cfg: Config, c: CircuitParams): (r: Cmd) {
    PutLeaf(cfg.isp, Handle(c.major, c.minor), c.downHandle, Sqm(Some(c.dlMax), SplitOverride(c.override).0))
  }

  function UpLeaf(cfg: Config, c: CircuitParams): (r: Cmd) {
    PutLeaf(cfg.internet, Handle(c.upMajor, c.minor), c.upHandle, Sqm(Some(c.ulMax), SplitOverride(c.override).1))
  }

  predicate WantsDownLeaf(c: CircuitParams) {
    !IsNone(SplitOverride(c.override).0)
  }

  predicate WantsUpLeaf(cfg: Config, c: CircuitParams) {
    !cfg.onAStick && !IsNone(SplitOverride(c.override).1)
  }

  function AddCircuit(mode: Mode, cfg: Config, c: CircuitParams): (r: Option<seq<Cmd>>) {
    if cfg.observe then None
    else
      var htb, sqm := DoHtb(mode, cfg.lazy), DoSqm(mode, cfg.lazy);
      Some(
        (if htb then [DownClass(cfg, c)] else []) +
        (if sqm && WantsDownLeaf(c) then [DownLeaf(cfg, c)] else []) +
        (if htb then [UpClass(cfg, c)] else []) +
        (if sqm && WantsUpLeaf(cfg, c) then [UpLeaf(cfg, c)] else []))
  }

  /** Deletions for a circuit; the class ids come from the parents' majors. */
  function ToPrune(cfg: Config, c: CircuitParams, force: bool): (r: Option<seq<Cmd>>) {
    if !force && cfg.lazy.No? then None
    else
      var htb := force || cfg.lazy.Full?;
      Some(
        (if WantsUpLeaf(cfg, c) then [DelLeaf(cfg.internet, Handle(c.upMajor, c.minor))] else []) +
        (if WantsDownLeaf(c) then [DelLeaf(cfg.isp, Handle(c.major, c.minor))] else []) +
        (if htb then [DelClass(cfg.isp, c.parent, Handle(c.parent.major, c.minor)),
                      DelClass(cfg.internet, c.upParent, Handle(c.upParent.major, c.minor))] else []))
  }

  // ----- Adding and pruning undo each other -----

  function DownId(cfg: Config, c: CircuitParams): (r: ClassId) {
    ClassId(cfg.isp, Handle(c.major, c.minor))
  }

  function UpId(cfg: Config, c: CircuitParams): (r: ClassId) {
    ClassId(cfg.internet, Handle(c.upMajor, c.minor))
  }

  /** The planner's promise, checked by _validate_planned_circuit_attachment. */
  predicate MajorsMatch(c: CircuitParams) {
    c.major == c.parent.major && c.upMajor == c.upParent.major
  }

  /** A kernel in which the circuit's classes are absent and nothing hangs below them. */
  ghost predicate Absent(k: Kernel, cfg: Config, c: CircuitParams) {
    && DownId(cfg, c) != UpId(cfg, c)
    && c.parent.minor != c.minor && c.upParent.minor != c.minor
    && forall d :: d == DownId(cfg, c) || d == UpId(cfg, c) ==> d !in k.classes && d !in k.leaves && !HasChild(k, d)
  }

  function Cmds(o: Option<seq<Cmd>>): (r: seq<Cmd>) {
    if o.None? then [] else o.value
  }

  /** The state once the builder has added the circuit. */
  ghost function Built(k: Kernel, cfg: Config, c: CircuitParams): (r: Kernel) {
    Run(k, Cmds(AddCircuit(Builder, cfg, c)))
  }

  /** k with the circuit's classes, and with or without its qdiscs. */
  ghost function WithCircuit(k: Kernel, cfg: Config, c: CircuitParams, sqm: bool): (r: Kernel) {
    var k1 := Exec(Exec(k, DownClass(cfg, c)), UpClass(cfg, c));
    var k2 := if sqm && WantsDownLeaf(c) then Exec(k1, DownLeaf(cfg, c)) else k1;
    if sqm && WantsUpLeaf(cfg, c) then Exec(k2, UpLeaf(cfg, c)) else k2
  }

  function Optional(b: bool, cmd: Cmd): (r: seq<Cmd>) {
    if b then [cmd] else []
  }

  ghost function ExecIf(k: Kernel, b: bool, cmd: Cmd): (r: Kernel) {
    if b then Exec(k, cmd) else k
  }

  lemma RunOptional(k: Kernel, b: bool, cmd: Cmd)
    ensures Run(k, Optional(b, cmd)) == ExecIf(k, b, cmd)
  {
    assert [cmd][1..] == [];
  }

  lemma RunFour(k: Kernel, b: seq<bool>, c: seq<Cmd>)
    requires |b| == |c| == 4
    ensures Run(k, Optional(b[0], c[0]) + Optional(b[1], c[1]) + Optional(b[2], c[2]) + Optional(b[3], c[3]))
            == ExecIf(ExecIf(ExecIf(ExecIf(k, b[0], c[0]), b[1], c[1]), b[2], c[2]), b[3], c[3])
  {
    var w, x, y, z := Optional(b[0], c[0]), Optional(b[1], c[1]), Optional(b[2], c[2]), Optional(b[3], c[3]);
    RunAppend(k, w + x + y, z);
    RunAppend(k, w + x, y);
    RunAppend(k, w, x);
    RunOptional(k, b[0], c[0]);
    var k1 := ExecIf(k, b[0], c[0]);
    RunOptional(k1, b[1], c[1]);
    var k2 := ExecIf(k1, b[1], c[1]);
    RunOptional(k2, b[2], c[2]);
    var k3 := ExecIf(k2, b[2], c[2]);
    RunOptional(k3, b[3], c[3]);
  }

  /** Adding a circuit, whatever the mode: classes if the mode creates them, qdiscs if it attaches them. */
  lemma AddRuns(k: Kernel, mode: Mode, cfg: Config, c: CircuitParams)
    requires !cfg.observe
    ensures var htb, sqm := DoHtb(mode, cfg.lazy), DoSqm(mode, cfg.lazy);
            Run(k, Cmds(AddCircuit(mode, cfg, c))) ==
              ExecIf(ExecIf(ExecIf(ExecIf(k, htb, DownClass(cfg, c)), sqm && WantsDownLeaf(c), DownLeaf(cfg, c)),
                            htb, UpClass(cfg, c)), sqm && WantsUpLeaf(cfg, c), UpLeaf(cfg, c))
  {
    var htb, sqm := DoHtb(mode, cfg.lazy), DoSqm(mode, cfg.lazy);
    RunFour(k, [htb, sqm && WantsDownLeaf(c), htb, sqm && WantsUpLeaf(cfg, c)],
            [DownClass(cfg, c), DownLeaf(cfg, c), UpClass(cfg, c), UpLeaf(cfg, c)]);
  }

  lemma BuilderAdds(k: Kernel, cfg: Config, c: CircuitParams)
    requires !cfg.observe
    ensures Built(k, cfg, c) == WithCircuit(k, cfg, c, !cfg.lazy.Htb?)
  {
    AddRuns(k, Builder, cfg, c);
  }

  function DelDownClass(cfg: Config, c: CircuitParams): (r: Cmd) {
    DelClass(cfg.isp, c.parent, Handle(c.parent.major, c.minor))
  }

  function DelUpClass(cfg: Config, c: CircuitParams): (r: Cmd) {
    DelClass(cfg.internet, c.upParent, Handle(c.upParent.major, c.minor))
  }

  lemma PruneRuns(k: Kernel, cfg: Config, c: CircuitParams, force: bool)
    requires force || !cfg.lazy.No?
    ensures var htb := force || cfg.lazy.Full?;
            Run(k, Cmds(ToPrune(cfg, c, force))) ==
              ExecIf(ExecIf(ExecIf(ExecIf(k, WantsUpLeaf(cfg, c), DelLeaf(cfg.internet, Handle(c.upMajor, c.minor))),
                                   WantsDownLeaf(c), DelLeaf(cfg.isp, Handle(c.major, c.minor))),
                            htb, DelDownClass(cfg, c)), htb, DelUpClass(cfg, c))
  {
    var htb := force || cfg.lazy.Full?;
    var b := [WantsUpLeaf(cfg, c), WantsDownLeaf(c), htb, htb];
    var d := [DelLeaf(cfg.internet, Handle(c.upMajor, c.minor)), DelLeaf(cfg.isp, Handle(c.major, c.minor)),
              DelDownClass(cfg, c), DelUpClass(cfg, c)];
    RunFour(k, b, d);
    assert Cmds(ToPrune(cfg, c, force)) ==
      Optional(b[0], d[0]) + Optional(b[1], d[1]) + Optional(b[2], d[2]) + Optional(b[3], d[3]);
  }

  lemma UndoLeaf(k: Kernel, dev: string, at: Handle, handle: Option<nat>, sqm: Sqm, want: bool, installed: bool)
    requires ClassId(dev, at) !in k.leaves
    ensures ExecIf(ExecIf(k, installed && want, PutLeaf(dev, at, handle, sqm)), want, DelLeaf(dev, at)) == k
  {
    var id := ClassId(dev, at);
    assert k.leaves[id := Leaf(handle, sqm)] - {id} == k.leaves;
    assert k.leaves - {id} == k.leaves;
  }

  /** The leaf part of a prune takes the qdiscs away and leaves the classes. */
  lemma LeavesUndone(k: Kernel, cfg: Config, c: CircuitParams, sqm: bool)
    requires Absent(k, cfg, c)
    ensures ExecIf(ExecIf(WithCircuit(k, cfg, c, sqm),
                          WantsUpLeaf(cfg, c), DelLeaf(cfg.internet, Handle(c.upMajor, c.minor))),
                   WantsDownLeaf(c), DelLeaf(cfg.isp, Handle(c.major, c.minor)))
            == WithCircuit(k, cfg, c, false)
  {
    var k1 := WithCircuit(k, cfg, c, false);
    assert DownId(cfg, c) !in k1.leaves && UpId(cfg, c) !in k1.leaves;
    var down, up := DownLeaf(cfg, c), UpLeaf(cfg, c);
    var k2 := ExecIf(k1, sqm && WantsDownLeaf(c), down);
    assert UpId(cfg, c) !in k2.leaves;
    UndoLeaf(k2, up.dev, up.at, up.handle, up.sqm, WantsUpLeaf(cfg, c), sqm);
    UndoLeaf(k1, down.dev, down.at, down.handle, down.sqm, WantsDownLeaf(c), sqm);
  }

  lemma ClassesUndone(k: Kernel, cfg: Config, c: CircuitParams)
    requires Absent(k, cfg, c) && MajorsMatch(c)
    ensures Exec(Exec(WithCircuit(k, cfg, c, false), DelDownClass(cfg, c)), DelUpClass(cfg, c)) == k
  {
    var d, u := DownId(cfg, c), UpId(cfg, c);
    var w := WithCircuit(k, cfg, c, false);
    assert !HasChild(k, d) && !HasChild(k, u) && d !in k.classes && u !in k.classes && d !in k.leaves && u !in k.leaves;
    NoChildren(k, cfg, c);
    var w1 := Exec(w, DelDownClass(cfg, c));
    assert w1.classes == w.classes - {d};
    assert !HasChild(w1, u);
    assert Exec(w1, DelUpClass(cfg, c)).classes == k.classes;
    assert Exec(w1, DelUpClass(cfg, c)).leaves == k.leaves;
  }

  lemma NoChildren(k: Kernel, cfg: Config, c: CircuitParams)
    requires Absent(k, cfg, c)
    ensures !HasChild(WithCircuit(k, cfg, c, false), DownId(cfg, c))
    ensures !HasChild(WithCircuit(k, cfg, c, false), UpId(cfg, c))
  {
    assert !HasChild(k, DownId(cfg, c)) && !HasChild(k, UpId(cfg, c));
  }

  /** Forced prune, in every lazy mode and with or without the qdiscs installed, leaves nothing of the circuit. */
  lemma ForcedPruneLeavesNothing(k: Kernel, cfg: Config, c: CircuitParams, sqm: bool)
    requires Absent(k, cfg, c) && MajorsMatch(c)
    ensures Run(WithCircuit(k, cfg, c, sqm), Cmds(ToPrune(cfg, c, true))) == k
  {
    PruneRuns(WithCircuit(k, cfg, c, sqm), cfg, c, true);
    LeavesUndone(k, cfg, c, sqm);
    ClassesUndone(k, cfg, c);
  }

  // ----- The live add is accepted -----

  /** The handles the circuit brings are free, and different on a shared interface. */
  ghost predicate HandlesFree(k: Kernel, cfg: Config, c: CircuitParams) {
    && (WantsDownLeaf(c) && c.downHandle.Some? ==> !HandleInUse(k, HandleKey(cfg.isp, c.downHandle.value)))
    && (WantsUpLeaf(cfg, c) && c.upHandle.Some? ==>
          && !HandleInUse(k, HandleKey(cfg.internet, c.upHandle.value))
          && !(WantsDownLeaf(c) && cfg.isp == cfg.internet && c.downHandle == c.upHandle))
  }

  ghost predicate ParentsExist(k: Kernel, cfg: Config, c: CircuitParams) {
    ParentExists(k, cfg.isp, c.parent) && ParentExists(k, cfg.internet, c.upParent)
  }

  lemma CleanOptional(k: Kernel, b: bool, cmd: Cmd)
    ensures CleanRun(k, Optional(b, cmd)) <==> (b ==> Creates(k, cmd))
  {
    assert [cmd][1..] == [];
  }

  lemma CleanFour(k: Kernel, b: seq<bool>, c: seq<Cmd>)
    requires |b| == |c| == 4
    ensures var k1 := ExecIf(k, b[0], c[0]);
      var k2 := ExecIf(k1, b[1], c[1]);
      var k3 := ExecIf(k2, b[2], c[2]);
      CleanRun(k, Optional(b[0], c[0]) + Optional(b[1], c[1]) + Optional(b[2], c[2]) + Optional(b[3], c[3])) <==>
      (b[0] ==> Creates(k, c[0])) && (b[1] ==> Creates(k1, c[1]))
      && (b[2] ==> Creates(k2, c[2])) && (b[3] ==> Creates(k3, c[3]))
  {
    var w, x, y, z := Optional(b[0], c[0]), Optional(b[1], c[1]), Optional(b[2], c[2]), Optional(b[3], c[3]);
    var k1 := ExecIf(k, b[0], c[0]);
    var k2 := ExecIf(k1, b[1], c[1]);
    CleanAppend(k, w + x + y, z);
    CleanAppend(k, w + x, y);
    CleanAppend(k, w, x);
    RunAppend(k, w + x, y);
    RunAppend(k, w, x);
    RunOptional(k, b[0], c[0]);
    RunOptional(k1, b[1], c[1]);
    RunOptional(k2, b[2], c[2]);
    CleanOptional(k, b[0], c[0]);
    CleanOptional(k1, b[1], c[1]);
    CleanOptional(k2, b[2], c[2]);
    CleanOptional(ExecIf(k2, b[2], c[2]), b[3], c[3]);
  }

  lemma AddIsClean(k: Kernel, mode: Mode, cfg: Config, c: CircuitParams)
    requires !cfg.observe
    ensures var htb, sqm := DoHtb(mode, cfg.lazy), DoSqm(mode, cfg.lazy);
      var k1 := ExecIf(k, htb, DownClass(cfg, c));
      var k2 := ExecIf(k1, sqm && WantsDownLeaf(c), DownLeaf(cfg, c));
      var k3 := ExecIf(k2, htb, UpClass(cfg, c));
      CleanRun(k, Cmds(AddCircuit(mode, cfg, c))) <==>
      (htb ==> Creates(k, DownClass(cfg, c))) && (sqm && WantsDownLeaf(c) ==> Creates(k1, DownLeaf(cfg, c)))
      && (htb ==> Creates(k2, UpClass(cfg, c))) && (sqm && WantsUpLeaf(cfg, c) ==> Creates(k3, UpLeaf(cfg, c)))
  {
    var htb, sqm := DoHtb(mode, cfg.lazy), DoSqm(mode, cfg.lazy);
    CleanFour(k, [htb, sqm && WantsDownLeaf(c), htb, sqm && WantsUpLeaf(cfg, c)],
              [DownClass(cfg, c), DownLeaf(cfg, c), UpClass(cfg, c), UpLeaf(cfg, c)]);
  }

  /** A kernel that differs from k in its classes only. */
  ghost predicate SameQdiscs(k: Kernel, r: Kernel) {
    r.roots == k.roots && r.htb == k.htb && r.leaves == k.leaves
  }

  /** Both leaves can be attached exactly when their handles are free. */
  lemma LeavesAccepted(k: Kernel, k1: Kernel, k3: Kernel, cfg: Config, c: CircuitParams)
    requires DownId(cfg, c) != UpId(cfg, c) && DownId(cfg, c) !in k.leaves && UpId(cfg, c) !in k.leaves
    requires SameQdiscs(k, k1) && DownId(cfg, c) in k1.classes && UpId(cfg, c) in k3.classes
    requires SameQdiscs(ExecIf(k1, WantsDownLeaf(c), DownLeaf(cfg, c)), k3)
    ensures HandlesFree(k, cfg, c) <==>
      && (WantsDownLeaf(c) ==> Creates(k1, DownLeaf(cfg, c)))
      && (WantsUpLeaf(cfg, c) ==> Creates(k3, UpLeaf(cfg, c)))
  {
    var down := DownLeaf(cfg, c);
    forall h ensures HandleInUse(k1, h) == HandleInUse(k, h) {}
    if WantsUpLeaf(cfg, c) && c.upHandle.Some? {
      var h := HandleKey(cfg.internet, c.upHandle.value);
      var k2 := ExecIf(k1, WantsDownLeaf(c), down);
      assert HandleInUse(k3, h) == HandleInUse(k2, h);
      if WantsDownLeaf(c) { HandleAfterLeaf(k1, down.dev, down.at, down.handle, down.sqm, h); }
    }
  }

  /** HTB-lazy: the kernel accepts the live add exactly when the circuit's handles are free. */
  lemma HtbLazyAddAcceptedIff(k: Kernel, cfg: Config, c: CircuitParams)
    requires Absent(k, cfg, c) && !cfg.observe && cfg.lazy.Htb?
    ensures CleanRun(Built(k, cfg, c), Cmds(AddCircuit(LiveUpdate, cfg, c))) <==> HandlesFree(k, cfg, c)
  {
    BuilderAdds(k, cfg, c);
    var built := Built(k, cfg, c);
    assert built == WithCircuit(k, cfg, c, false);
    AddIsClean(built, LiveUpdate, cfg, c);
    LeavesAccepted(k, built, ExecIf(built, WantsDownLeaf(c), DownLeaf(cfg, c)), cfg, c);
  }

  /** Full-lazy: the kernel accepts the live add exactly when the parents exist and the handles are free. */
  lemma FullLazyAddAcceptedIff(k: Kernel, cfg: Config, c: CircuitParams)
    requires Absent(k, cfg, c) && !cfg.observe && cfg.lazy.Full? && MajorsMatch(c)
    ensures CleanRun(k, Cmds(AddCircuit(LiveUpdate, cfg, c))) <==> ParentsExist(k, cfg, c) && HandlesFree(k, cfg, c)
  {
    AddIsClean(k, LiveUpdate, cfg, c);
    var k1 := Exec(k, DownClass(cfg, c));
    var k2 := ExecIf(k1, WantsDownLeaf(c), DownLeaf(cfg, c));
    var k3 := Exec(k2, UpClass(cfg, c));
    LeavesAccepted(k, k1, k3, cfg, c);
    assert Creates(k, DownClass(cfg, c)) <==> ParentExists(k, cfg.isp, c.parent);
    assert Creates(k2, UpClass(cfg, c)) <==> ParentExists(k, cfg.internet, c.upParent);
  }

  /** HTB-lazy: activating a circuit and pruning it again gives back the builder's state. */
  lemma HtbLazyAddThenPrune(k: Kernel, cfg: Config, c: CircuitParams)
    requires Absent(k, cfg, c) && !cfg.observe && cfg.lazy.Htb?
    ensures var built := Built(k, cfg, c);
            var active := Run(built, Cmds(AddCircuit(LiveUpdate, cfg, c)));
            && active == WithCircuit(k, cfg, c, true)
            && Run(active, Cmds(ToPrune(cfg, c, false))) == built
            && (CleanRun(built, Cmds(AddCircuit(LiveUpdate, cfg, c))) <==> HandlesFree(k, cfg, c))
  {
    HtbLazyAddAcceptedIff(k, cfg, c);
    BuilderAdds(k, cfg, c);
    var built := Built(k, cfg, c);
    AddRuns(built, LiveUpdate, cfg, c);
    PruneRuns(WithCircuit(k, cfg, c, true), cfg, c, false);
    LeavesUndone(k, cfg, c, true);
  }

  /** Full-lazy: pruning a built circuit and adding it again gives back the builder's state. */
  lemma FullLazyPruneThenAdd(k: Kernel, cfg: Config, c: CircuitParams)
    requires Absent(k, cfg, c) && !cfg.observe && cfg.lazy.Full? && MajorsMatch(c)
    ensures var built := Built(k, cfg, c);
            var pruned := Run(built, Cmds(ToPrune(cfg, c, false)));
            && pruned == k
            && Run(pruned, Cmds(AddCircuit(LiveUpdate, cfg, c))) == built
            && (CleanRun(pruned, Cmds(AddCircuit(LiveUpdate, cfg, c))) <==>
              ParentsExist(k, cfg, c) && HandlesFree(k, cfg, c))
  {
    FullLazyAddAcceptedIff(k, cfg, c);
    BuilderAdds(k, cfg, c);
    PruneRuns(Built(k, cfg, c), cfg, c, false);
    LeavesUndone(k, cfg, c, true);
    ClassesUndone(k, cfg, c);
    AddRuns(k, LiveUpdate, cfg, c);
    AddRuns(k, Builder, cfg, c);
  }

  /** With lazy queues off, neither live adds nor unforced prunes touch the kernel. */
  lemma NotLazyDoesNothing(cfg: Config, c: CircuitParams)
    requires cfg.lazy.No?
    ensures Cmds(AddCircuit(LiveUpdate, cfg, c)) == [] && ToPrune(cfg, c, false).None?
  {
  }

  /** A childless class goes exactly when the deletion names it. */
  lemma DelHits(k: Kernel, dev: string, parent: Handle, id: Handle, x: ClassId)
    requires !HasChild(k, x) && x in k.classes
    ensures x in Exec(k, DelClass(dev, parent, id)).classes <==> x != ClassId(dev, id)
    ensures !HasChild(Exec(k, DelClass(dev, parent, id)), x)
  {
    NoNewChildren(k, Exec(k, DelClass(dev, parent, id)), x);
  }

  /** Two deletions in a row. */
  lemma DelBoth(k: Kernel, a: Cmd, b: Cmd, x: ClassId)
    requires a.DelClass? && b.DelClass? && !HasChild(k, x) && x in k.classes
    ensures x in Exec(Exec(k, a), b).classes <==> x != ClassId(a.dev, a.id) && x != ClassId(b.dev, b.id)
  {
    DelHits(k, a.dev, a.parent, a.id, x);
    if x in Exec(k, a).classes { DelHits(Exec(k, a), b.dev, b.parent, b.id, x); }
  }

  /** The class part of a forced prune works exactly when the circuit's majors are its parents'. */
  lemma ForcedPruneCleansIff(k: Kernel, cfg: Config, c: CircuitParams)
    requires Absent(k, cfg, c)
    ensures var r := Run(WithCircuit(k, cfg, c, true), Cmds(ToPrune(cfg, c, true)));
            DownId(cfg, c) !in r.classes && UpId(cfg, c) !in r.classes <==>
              MajorsMatch(c) || SwappedOnOneDevice(cfg, c)
  {
    var w := WithCircuit(k, cfg, c, false);
    PruneRuns(WithCircuit(k, cfg, c, true), cfg, c, true);
    LeavesUndone(k, cfg, c, true);
    NoChildren(k, cfg, c);
    DelBoth(w, DelDownClass(cfg, c), DelUpClass(cfg, c), DownId(cfg, c));
    DelBoth(w, DelDownClass(cfg, c), DelUpClass(cfg, c), UpId(cfg, c));
  }

  lemma NoNewChildren(w: Kernel, w1: Kernel, d: ClassId)
    requires !HasChild(w, d) && w1.classes.Keys <= w.classes.Keys
    requires forall x :: x in w1.classes ==> w1.classes[x] == w.classes[x]
    ensures !HasChild(w1, d)
  {
  }

  /** On one shared interface the two class deletions may hit each other's classes. */
  predicate SwappedOnOneDevice(cfg: Config, c: CircuitParams) {
    cfg.isp == cfg.internet && c.parent.major == c.upMajor && c.upParent.major == c.major
  }

  /** In every prune all qdisc deletions come before all class deletions. */
  lemma QdiscsBeforeClasses(cfg: Config, c: CircuitParams, force: bool)
    ensures var cmds := Cmds(ToPrune(cfg, c, force));
            forall i, j :: 0 <= i < |cmds| && 0 <= j < |cmds| && cmds[i].DelLeaf? && cmds[j].DelClass? ==> i < j
  {
  }
}
