/** The address manager's operations one etcd command at a time. Processes of different nodes take
    turns between any two commands; a node runs its own operations one after the other. What the
    operations do between commands is that of src/ipam/ipam.cc and src/etcd/etcd_client_shell.cc. */
module Interleaving {
  import opened Text
  import opened Wrappers
  import opened Keys
  import opened Etcd
  import opened Ipv4
  import opened Subnet
  import opened Ipam

  type Store = map<string, string>

  /** The next command of an operation, with what the ones before it left in its variables. */
  datatype Pc =
    | Idle
    // allocateSubnet
    | SubnetGet | SharedGet | SharedPut(text: string) | SubnetPut | UndoGet | UndoPut(text: string)
    // releaseSubnet
    | SubnetDel | UnlistGet | UnlistPut(text: string)
    // allocateIp
    | NetGet | IpList(net: Cidr, i: nat) | IpGet(net: Cidr, i: nat) | IpPut(net: Cidr, i: nat, text: string)
    // releaseIp
    | FreeGet(ip: string) | FreePut(text: string)

  datatype Op = AllocateSubnet | ReleaseSubnet | AllocateIp | ReleaseIp(ip: string)

  function First(op: Op): Pc {
    match op
    case AllocateSubnet => SubnetGet
    case ReleaseSubnet => SubnetDel
    case AllocateIp => NetGet
    case ReleaseIp(ip) => FreeGet(ip)
  }

  ghost predicate PcValid(pc: Pc) {
    match pc
    case IpList(c, i) => Hosts(c, i)
    case IpGet(c, i) => Hosts(c, i)
    case IpPut(c, i, _) => Hosts(c, i)
    case _ => true
  }

  predicate Hosts(c: Cidr, i: nat) {
    c.Valid() && 1 <= c.prefix < MAX_PREFIX && 1 <= i <= HostCount(c)
  }

  /** The next host to try, if there is one. */
  function Try(c: Cidr, i: nat): (pc: Pc)
    ensures PcValid(pc)
  {
    if Hosts(c, i) then IpList(c, i) else Idle
  }

  function Own(n: Name): string { KeyText(NodeSubnet(n)) }
  function Shared(): string { KeyText(Subnets) }
  function Used(n: Name): string { KeyText(Addresses(n)) }

  /** `put`, or `del` when nothing is left. */
  function Write(kv: Store, key: string, text: string): Store {
    if text == "" then kv - {key} else kv[key := text]
  }

  function Gotten(kv: Store, key: string, ok: bool): string {
    if ok then Read(kv, key) else ""
  }

  /** One command of node `n`, whose podCIDR is `cidr`; `ok` is whether the command succeeds. */
  function Step(n: Name, cidr: string, kv: Store, pc: Pc, ok: bool): (r: (Store, Pc))
    requires PcValid(pc)
    ensures PcValid(r.1)
  {
    match pc
    case Idle => (kv, Idle)
    case SubnetGet => (kv, if Gotten(kv, Own(n), ok) != "" then Idle else SharedGet)
    case SharedGet => (kv, SharedPut(if ok then AppendText(Read(kv, Shared()), cidr) else cidr))
    case SharedPut(t) => if ok then (kv[Shared() := t], SubnetPut) else (kv, Idle)
    case SubnetPut => if ok then (kv[Own(n) := cidr], Idle) else (kv, UndoGet)
    case UndoGet => (kv, if ok then UndoPut(Join(Without(ListAt(kv, Shared()), cidr), COMMA)) else Idle)
    case UndoPut(t) => (if ok then Write(kv, Shared(), t) else kv, Idle)
    case SubnetDel => if ok then (kv - {Own(n)}, UnlistGet) else (kv, Idle)
    case UnlistGet => (kv, if ok then UnlistPut(Join(Without(ListAt(kv, Shared()), cidr), COMMA)) else Idle)
    case UnlistPut(t) => (if ok then Write(kv, Shared(), t) else kv, Idle)
    case NetGet =>
      var c := ParseNetwork(Gotten(kv, Own(n), ok));
      (kv, if c.Some? then Try(c.value, 1) else Idle)
    case IpList(c, i) => (kv, if !ok || GenerateIp(c, i) !in ListAt(kv, Used(n)) then IpGet(c, i) else Try(c, i + 1))
    case IpGet(c, i) =>
      var ip := GenerateIp(c, i);
      (kv, IpPut(c, i, if ok then AppendText(Read(kv, Used(n)), ip) else ip))
    case IpPut(c, i, t) => if ok then (kv[Used(n) := t], Idle) else (kv, Try(c, i + 1))
    case FreeGet(ip) => (kv, if ok then FreePut(Join(Without(ListAt(kv, Used(n)), ip), COMMA)) else Idle)
    case FreePut(t) => (if ok then Write(kv, Used(n), t) else kv, Idle)
  }

  // ---------------------------------------------------------------- schedules

  /** A turn of a node: it starts `op` if it is idle, and otherwise runs its next command. */
  datatype Move = Move(node: Name, op: Op, ok: bool)

  datatype System = System(kv: Store, pcs: map<Name, Pc>)

  function PcOf(s: System, n: Name): Pc {
    if n in s.pcs then s.pcs[n] else Idle
  }

  ghost predicate Valid(s: System) {
    forall n <- s.pcs :: PcValid(s.pcs[n])
  }

  ghost function Turn(cidrs: Name -> string, s: System, m: Move): (t: System)
    requires Valid(s)
    ensures Valid(t)
  {
    var pc := PcOf(s, m.node);
    if pc.Idle? then System(s.kv, s.pcs[m.node := First(m.op)]) else
      var r := Step(m.node, cidrs(m.node), s.kv, pc, m.ok);
      System(r.0, s.pcs[m.node := r.1])
  }

  ghost function Exec(cidrs: Name -> string, s: System, moves: seq<Move>): (t: System)
    requires Valid(s)
    ensures Valid(t)
    decreases |moves|
  {
    if moves == [] then s else Exec(cidrs, Turn(cidrs, s, moves[0]), moves[1..])
  }

  /** The turns of one node. */
  function Only(moves: seq<Move>, n: Name): seq<Move> {
    if moves == [] then [] else (if moves[0].node == n then [moves[0]] else []) + Only(moves[1..], n)
  }

  // ---------------------------------------------------------------- a node sees only itself

  /** What the shared list held is forgotten. */
  function Blind(pc: Pc): Pc {
    match pc
    case SharedPut(_) => SharedPut("")
    case UndoPut(_) => UndoPut("")
    case UnlistPut(_) => UnlistPut("")
    case _ => pc
  }

  ghost predicate SameEntry(a: Store, b: Store, key: string) {
    (key in a <==> key in b) && (key in a && key in b ==> a[key] == b[key])
  }

  /** Two systems look the same to a node: its subnet, its addresses, and its next command. */
  ghost predicate SameTo(n: Name, s: System, t: System) {
    && SameEntry(s.kv, t.kv, Own(n)) && SameEntry(s.kv, t.kv, Used(n))
    && Blind(PcOf(s, n)) == Blind(PcOf(t, n))
  }

  lemma KeysApart(m: Name, n: Name)
    ensures Shared() != Own(n) && Shared() != Used(n) && Own(m) != Used(n)
    ensures m != n ==> Own(m) != Own(n) && Used(m) != Used(n)
  {
    if Shared() == Own(n) { KeyTextInjective(Subnets, NodeSubnet(n)); }
    if Shared() == Used(n) { KeyTextInjective(Subnets, Addresses(n)); }
    if Own(m) == Used(n) { KeyTextInjective(NodeSubnet(m), Addresses(n)); }
    if Own(m) == Own(n) { KeyTextInjective(NodeSubnet(m), NodeSubnet(n)); }
    if Used(m) == Used(n) { KeyTextInjective(Addresses(m), Addresses(n)); }
  }

  /** A command of another node changes nothing a node sees. */
  lemma StepFrames(m: Name, cidr: string, kv: Store, pc: Pc, ok: bool, n: Name)
    requires PcValid(pc) && m != n
    ensures SameEntry(kv, Step(m, cidr, kv, pc, ok).0, Own(n)) && SameEntry(kv, Step(m, cidr, kv, pc, ok).0, Used(n))
  {
    hide KeyText, GenerateIp, ParseNetwork, ListAt, Read;
    KeysApart(m, n);
    KeysApart(n, m);
  }

  /** A command of the node itself does the same in two systems that look the same to it, whatever the
      shared list holds in either. */
  lemma StepAgrees(n: Name, cidr: string, a: Store, b: Store, p: Pc, q: Pc, ok: bool)
    requires PcValid(p) && PcValid(q) && Blind(p) == Blind(q)
    requires SameEntry(a, b, Own(n)) && SameEntry(a, b, Used(n))
    ensures var r, s := Step(n, cidr, a, p, ok), Step(n, cidr, b, q, ok);
            SameEntry(r.0, s.0, Own(n)) && SameEntry(r.0, s.0, Used(n)) && Blind(r.1) == Blind(s.1)
  {
    hide KeyText, GenerateIp, ParseNetwork, Read, ListAt, Join, Without, AppendText, Try, Hosts;
    KeysApart(n, n);
    SameText(a, b, Own(n));
    SameText(a, b, Used(n));
  }

  lemma {:induction false} SameRuns(cidrs: Name -> string, s: System, t: System, moves: seq<Move>, n: Name)
    requires Valid(s) && Valid(t) && SameTo(n, s, t)
    ensures SameTo(n, Exec(cidrs, s, moves), Exec(cidrs, t, Only(moves, n)))
    decreases |moves|
  {
    hide Step, Blind, SameEntry;
    if moves != [] {
      var m := moves[0];
      var s' := Turn(cidrs, s, m);
      if m.node == n {
        var t' := Turn(cidrs, t, m);
        OwnTurn(cidrs, s, t, m);
        SameRuns(cidrs, s', t', moves[1..], n);
        assert Only(moves, n)[1..] == Only(moves[1..], n) && Only(moves, n)[0] == m;
      } else {
        OtherTurn(cidrs, s, t, m, n);
        SameRuns(cidrs, s', t, moves[1..], n);
        assert Only(moves, n) == Only(moves[1..], n);
      }
    }
  }

  lemma OwnTurn(cidrs: Name -> string, s: System, t: System, m: Move)
    requires Valid(s) && Valid(t) && SameTo(m.node, s, t)
    ensures SameTo(m.node, Turn(cidrs, s, m), Turn(cidrs, t, m))
  {
    hide Step, SameEntry;
    StepAgrees(m.node, cidrs(m.node), s.kv, t.kv, PcOf(s, m.node), PcOf(t, m.node), m.ok);
  }

  lemma OtherTurn(cidrs: Name -> string, s: System, t: System, m: Move, n: Name)
    requires Valid(s) && Valid(t) && SameTo(n, s, t) && m.node != n
    ensures SameTo(n, Turn(cidrs, s, m), t)
  {
    hide Step, Blind;
    StepFrames(m.node, cidrs(m.node), s.kv, PcOf(s, m.node), m.ok, n);
  }

  /** Interleaving safety: however the nodes' commands interleave and whichever of them fail, a node's
      subnet and addresses are what its own turns alone would have made of them. The shared list,
      which nodes race for, has no influence. */
  lemma {:induction false} OwnRun(cidrs: Name -> string, s: System, moves: seq<Move>, n: Name)
    requires Valid(s)
    ensures SameTo(n, Exec(cidrs, s, moves), Exec(cidrs, s, Only(moves, n)))
  {
    hide Step, Exec;
    SameRuns(cidrs, s, s, moves, n);
  }

  // ---------------------------------------------------------------- no address twice

  ghost predicate HostText(c: Cidr, x: string) {
    exists i: nat :: Hosts(c, i) && x == GenerateIp(c, i)
  }

  ghost predicate Distinct(xs: seq<string>) {
    forall i, j | 0 <= i < j < |xs| :: xs[i] != xs[j]
  }

  /** A node's address list holds hosts of its network, each once. */
  ghost predicate ListInv(n: Name, c: Cidr, kv: Store) {
    && CleanAt(kv, Used(n)) && Distinct(ListAt(kv, Used(n)))
    && forall x <- ListAt(kv, Used(n)) :: HostText(c, x)
  }

  /** What the variables of a pending command owe to the node's own entries. */
  ghost predicate PcInv(n: Name, c: Cidr, kv: Store, pc: Pc) {
    match pc
    case IpList(d, _) => d == c
    case IpGet(d, i) => d == c && Hosts(d, i) && GenerateIp(d, i) !in ListAt(kv, Used(n))
    case IpPut(d, i, t) =>
      && d == c && Hosts(d, i) && GenerateIp(d, i) !in ListAt(kv, Used(n))
      && t == AppendText(Read(kv, Used(n)), GenerateIp(d, i))
    case FreePut(t) => exists ip :: t == Join(Without(ListAt(kv, Used(n)), ip), COMMA)
    case _ => true
  }

  ghost predicate NodeInv(n: Name, c: Cidr, kv: Store, pc: Pc)
    requires c.Valid()
  {
    && ListInv(n, c, kv) && PcInv(n, c, kv, pc)
    && (Read(kv, Own(n)) == "" || Read(kv, Own(n)) == RenderCidr(c))
  }

  /** Commands that only read. */
  predicate Reads(pc: Pc) {
    pc.SubnetGet? || pc.SharedGet? || pc.UndoGet? || pc.UnlistGet? || pc.NetGet? || pc.IpList? || pc.IpGet?
      || pc.FreeGet?
  }

  lemma FrameInv(n: Name, c: Cidr, kv: Store, after: Store, pc: Pc)
    requires c.Valid() && NodeInv(n, c, kv, pc) && SameEntry(kv, after, Own(n)) && SameEntry(kv, after, Used(n))
    ensures NodeInv(n, c, after, pc)
  {
    hide KeyText, GenerateIp, RenderCidr, Hosts, HostText, Clean, Distinct;
    SameText(kv, after, Own(n));
    SameText(kv, after, Used(n));
  }

  lemma SameText(a: Store, b: Store, key: string)
    requires SameEntry(a, b, key)
    ensures Read(a, key) == Read(b, key) && ListAt(a, key) == ListAt(b, key) && (CleanAt(a, key) <==> CleanAt(b, key))
  {
    hide Clean;
  }

  lemma ListFrame(n: Name, c: Cidr, kv: Store, after: Store)
    requires ListInv(n, c, kv) && SameEntry(kv, after, Used(n))
    ensures ListInv(n, c, after) && ListAt(after, Used(n)) == ListAt(kv, Used(n))
    ensures Read(after, Used(n)) == Read(kv, Used(n))
  {
    hide KeyText, HostText, Clean, Distinct;
    SameText(kv, after, Used(n));
  }

  lemma ReadNothing(kv: Store, key: string)
    ensures key !in kv ==> Read(kv, key) == ""
  {
  }

  lemma {:induction false} WithoutDistinct(xs: seq<string>, x: string)
    requires Distinct(xs)
    ensures Distinct(Without(xs, x)) && forall y <- Without(xs, x) :: y in xs
  {
    if xs != [] {
      assert Distinct(xs[1..]);
      assert xs[0] !in xs[1..];
      WithoutDistinct(xs[1..], x);
    }
  }

  lemma ListAdded(n: Name, c: Cidr, kv: Store, i: nat)
    requires ListInv(n, c, kv) && Hosts(c, i) && GenerateIp(c, i) !in ListAt(kv, Used(n))
    ensures ListInv(n, c, kv[Used(n) := AppendText(Read(kv, Used(n)), GenerateIp(c, i))])
  {
    hide KeyText, GenerateIp, ListAt, Read, Clean;
    HostTextIsToken(c, i);
    AppendRefines(kv, Used(n), GenerateIp(c, i));
    assert HostText(c, GenerateIp(c, i));
  }

  lemma {:induction false} ListReduced(n: Name, c: Cidr, kv: Store, ip: string)
    requires ListInv(n, c, kv)
    ensures ListInv(n, c, Write(kv, Used(n), Join(Without(ListAt(kv, Used(n)), ip), COMMA)))
  {
    hide KeyText, GenerateIp, ListAt, Read, Clean;
    RemoveRefines(kv, Used(n), ip);
    WithoutDistinct(ListAt(kv, Used(n)), ip);
  }

  lemma SubnetWritten(n: Name, c: Cidr, kv: Store)
    requires c.Valid()
    ensures Read(kv[Own(n) := RenderCidr(c)], Own(n)) == RenderCidr(c)
  {
    hide KeyText, RenderCidr, ListAt, Read;
    CidrTextIsToken(c);
    assert Join([RenderCidr(c)], COMMA) == RenderCidr(c);
    WriteList(kv, Own(n), [RenderCidr(c)]);
    ReadClean(kv[Own(n) := RenderCidr(c)], Own(n));
  }

  lemma SubnetRead(n: Name, c: Cidr, kv: Store)
    requires NodeNetwork(c) && (Read(kv, Own(n)) == "" || Read(kv, Own(n)) == RenderCidr(c))
    ensures ParseNetwork(Read(kv, Own(n))) == None || ParseNetwork(Read(kv, Own(n))) == Some(c)
  {
    hide KeyText, RenderCidr, Read, ParseQuad;
    RenderedReadsBack(c);
  }

  /** A node's own command keeps its invariant, when reads succeed. */
  lemma StepKeeps(n: Name, c: Cidr, kv: Store, pc: Pc, ok: bool)
    requires NodeNetwork(c) && PcValid(pc) && NodeInv(n, c, kv, pc) && (Reads(pc) ==> ok)
    ensures var r := Step(n, RenderCidr(c), kv, pc, ok); NodeInv(n, c, r.0, r.1)
  {
    hide KeyText, GenerateIp, RenderCidr, HostText, Clean, ListAt, Read, ParseNetwork, ListInv, Hosts;
    KeysApart(n, n);
    var r := Step(n, RenderCidr(c), kv, pc, ok);
    if SameEntry(kv, r.0, Used(n)) { ListFrame(n, c, kv, r.0); }
    if SameEntry(kv, r.0, Own(n)) { SameText(kv, r.0, Own(n)); }
    match pc
    case IpPut(_, i, _) => ListAdded(n, c, kv, i);
    case FreePut(t) =>
      var ip :| t == Join(Without(ListAt(kv, Used(n)), ip), COMMA);
      ListReduced(n, c, kv, ip);
    case SubnetPut => SubnetWritten(n, c, kv);
    case NetGet => SubnetRead(n, c, kv);
    case SubnetDel => ReadNothing(r.0, Own(n));
    case _ =>
  }

  /** The networks the nodes are given; `RenderCidr` of them is what the API server reports. */
  ghost function Texts(nets: Name -> Cidr): Name -> string
    requires forall n: Name {:trigger nets(n)} :: NodeNetwork(nets(n))
  {
    (n: Name) => if NodeNetwork(nets(n)) then RenderCidr(nets(n)) else ""
  }

  ghost predicate Networks(nets: Name -> Cidr) {
    forall n: Name {:trigger nets(n)} :: NodeNetwork(nets(n))
  }

  ghost predicate SystemInv(nets: Name -> Cidr, s: System)
    requires Networks(nets)
  {
    Valid(s) && forall n: Name :: NodeInv(n, nets(n), s.kv, PcOf(s, n))
  }

  lemma StartInv(nets: Name -> Cidr, kv: Store)
    requires Networks(nets) && forall n: Name :: Own(n) !in kv && Used(n) !in kv
    ensures SystemInv(nets, System(kv, map[]))
  {
    hide KeyText, NodeNetwork;
    forall n: Name
      ensures nets(n).Valid() && NodeInv(n, nets(n), kv, Idle)
    {
      assert NodeNetwork(nets(n)) && Own(n) !in kv && Used(n) !in kv;
      NothingListed(n, nets(n), kv);
    }
  }

  lemma NothingListed(n: Name, c: Cidr, kv: Store)
    requires NodeNetwork(c) && Own(n) !in kv && Used(n) !in kv
    ensures c.Valid() && NodeInv(n, c, kv, Idle)
  {
    hide KeyText;
    ReadNothing(kv, Own(n));
    ReadNothing(kv, Used(n));
  }

  /** No read command of the schedule fails. */
  ghost predicate ReadsSucceed(cidrs: Name -> string, s: System, moves: seq<Move>)
    requires Valid(s)
    decreases |moves|
  {
    moves != [] ==>
      && (Reads(PcOf(s, moves[0].node)) ==> moves[0].ok)
      && ReadsSucceed(cidrs, Turn(cidrs, s, moves[0]), moves[1..])
  }

  lemma TurnKeeps(nets: Name -> Cidr, s: System, m: Move)
    requires Networks(nets) && SystemInv(nets, s) && (Reads(PcOf(s, m.node)) ==> m.ok)
    ensures SystemInv(nets, Turn(Texts(nets), s, m))
  {
    hide Step, NodeInv, Reads, Floor;
    var t := Turn(Texts(nets), s, m);
    assert NodeNetwork(nets(m.node));
    var pc := PcOf(s, m.node);
    forall n: Name
      ensures NodeInv(n, nets(n), t.kv, PcOf(t, n))
    {
      assert NodeInv(n, nets(n), s.kv, PcOf(s, n)) && NodeNetwork(nets(n));
      if n == m.node {
        if pc.Idle? { StartKeeps(n, nets(n), s.kv, m.op); } else { StepKeeps(n, nets(n), s.kv, pc, m.ok); }
      } else if !pc.Idle? {
        StepFrames(m.node, Texts(nets)(m.node), s.kv, pc, m.ok, n);
        FrameInv(n, nets(n), s.kv, t.kv, PcOf(s, n));
      }
    }
  }

  lemma StartKeeps(n: Name, c: Cidr, kv: Store, op: Op)
    requires NodeNetwork(c) && NodeInv(n, c, kv, Idle)
    ensures NodeInv(n, c, kv, First(op))
  {
    hide ListInv;
  }

  lemma {:induction false} ExecKeeps(nets: Name -> Cidr, s: System, moves: seq<Move>)
    requires Networks(nets) && SystemInv(nets, s) && ReadsSucceed(Texts(nets), s, moves)
    ensures SystemInv(nets, Exec(Texts(nets), s, moves))
    decreases |moves|
  {
    hide Turn, NodeInv, NodeNetwork, Reads;
    if moves != [] {
      TurnKeeps(nets, s, moves[0]);
      ExecKeeps(nets, Turn(Texts(nets), s, moves[0]), moves[1..]);
    }
  }

  /** Whatever the interleaving, and whichever writes fail, no address is listed twice: not on a node,
      and not on two nodes whose networks do not overlap. */
  lemma {:induction false} NoAddressTwice(nets: Name -> Cidr, s: System, moves: seq<Move>, m: Name, n: Name)
    requires Networks(nets) && SystemInv(nets, s) && ReadsSucceed(Texts(nets), s, moves)
    ensures var kv := Exec(Texts(nets), s, moves).kv;
            && Distinct(ListAt(kv, Used(m)))
            && (m != n && nets(m).Valid() && nets(n).Valid() && Disjoint(nets(m), nets(n)) ==>
                forall x <- ListAt(kv, Used(m)) :: x !in ListAt(kv, Used(n)))
  {
    hide Exec, PcInv, ListAt, Disjoint, CleanAt, KeyText, GenerateIp;
    ExecKeeps(nets, s, moves);
    var t := Exec(Texts(nets), s, moves);
    assert NodeInv(m, nets(m), t.kv, PcOf(t, m)) && NodeInv(n, nets(n), t.kv, PcOf(t, n));
    if m != n && nets(m).Valid() && nets(n).Valid() && Disjoint(nets(m), nets(n)) {
      forall x <- ListAt(t.kv, Used(m))
        ensures x !in ListAt(t.kv, Used(n))
      {
        HostsApart(nets(m), nets(n), x);
      }
    }
  }

  lemma HostsApart(c: Cidr, d: Cidr, x: string)
    requires NodeNetwork(c) && NodeNetwork(d) && Disjoint(c, d) && HostText(c, x)
    ensures !HostText(d, x)
  {
    hide GenerateIp, Disjoint;
    var i: nat :| Hosts(c, i) && x == GenerateIp(c, i);
    forall j: nat | Hosts(d, j)
      ensures x != GenerateIp(d, j)
    {
      DisjointNetworksDisjointHosts(c, d, i, j);
    }
  }

  // ---------------------------------------------------------------- the shared list is raced for

  /** A pending put of the shared list writes a list, or deletes the key. */
  ghost predicate SharedPc(pc: Pc) {
    match pc
    case SharedPut(t) => Clean(t)
    case UndoPut(t) => t == "" || Clean(t)
    case UnlistPut(t) => t == "" || Clean(t)
    case _ => true
  }

  ghost predicate SharedInv(s: System) {
    Valid(s) && CleanAt(s.kv, Shared()) && forall n <- s.pcs :: SharedPc(s.pcs[n])
  }

  ghost predicate Reported(cidrs: Name -> string) {
    forall n: Name {:trigger cidrs(n)} :: Token(cidrs(n))
  }

  lemma AppendedIsClean(kv: Store, key: string, value: string, ok: bool)
    requires CleanAt(kv, key) && Token(value)
    ensures Clean(Appended(kv, key, value, ok))
  {
    hide Clean, Token, ListAt, Read, AppendText;
    AppendRefines(kv, key, value);
    OverwriteExact(kv, key, value);
  }

  lemma {:induction false} RemovedIsClean(kv: Store, key: string, value: string)
    requires CleanAt(kv, key)
    ensures var t := Join(Without(ListAt(kv, key), value), COMMA); t == "" || Clean(t)
  {
    hide Clean, Token, ListAt, Read;
    RemoveRefines(kv, key, value);
  }

  /** Every command, of any node, leaves a list of tokens under the shared key. */
  lemma StepKeepsShared(n: Name, cidr: string, kv: Store, pc: Pc, ok: bool)
    requires PcValid(pc) && Token(cidr) && CleanAt(kv, Shared()) && SharedPc(pc)
    ensures CleanAt(Step(n, cidr, kv, pc, ok).0, Shared()) && SharedPc(Step(n, cidr, kv, pc, ok).1)
  {
    hide KeyText, GenerateIp, ParseNetwork, Clean, ListAt, Read, AppendText, Token, Hosts, Without, Join, Try;
    KeysApart(n, n);
    AppendedIsClean(kv, Shared(), cidr, ok);
    RemovedIsClean(kv, Shared(), cidr);
    TryIsNotShared(pc);
  }

  lemma TryIsNotShared(pc: Pc)
    ensures pc.IpList? || pc.IpPut? ==> SharedPc(Try(pc.net, pc.i + 1))
    ensures pc.NetGet? ==> forall c: Cidr {:trigger Try(c, 1)} :: SharedPc(Try(c, 1))
  {
  }

  lemma TurnKeepsShared(cidrs: Name -> string, s: System, m: Move)
    requires SharedInv(s) && Reported(cidrs)
    ensures SharedInv(Turn(cidrs, s, m))
  {
    hide Step, Clean, Token, KeyText;
    var pc := PcOf(s, m.node);
    if pc.Idle? {
      assert SharedPc(First(m.op));
    } else {
      StepKeepsShared(m.node, cidrs(m.node), s.kv, pc, m.ok);
    }
  }

  lemma {:induction false} ExecKeepsShared(cidrs: Name -> string, s: System, moves: seq<Move>)
    requires SharedInv(s) && Reported(cidrs)
    ensures SharedInv(Exec(cidrs, s, moves))
    decreases |moves|
  {
    hide Turn, Reported, CleanAt, SharedPc;
    if moves != [] {
      TurnKeepsShared(cidrs, s, moves[0]);
      ExecKeepsShared(cidrs, Turn(cidrs, s, moves[0]), moves[1..]);
    }
  }

  lemma {:induction false} ExecSplit(cidrs: Name -> string, s: System, a: seq<Move>, b: seq<Move>)
    requires Valid(s)
    ensures Exec(cidrs, s, a + b) == Exec(cidrs, Exec(cidrs, s, a), b)
    decreases |a|
  {
    hide Turn;
    if a == [] {
      assert a + b == b;
    } else {
      ExecSplit(cidrs, Turn(cidrs, s, a[0]), a[1..], b);
      assert (a + b)[1..] == a[1..] + b;
    }
  }

  lemma {:induction false} ExecOne(cidrs: Name -> string, s: System, m: Move)
    requires Valid(s)
    ensures Exec(cidrs, s, [m]) == Turn(cidrs, s, m)
  {
    hide Turn;
    var t := Turn(cidrs, s, m);
    assert [m][1..] == [];
    assert Exec(cidrs, t, []) == t;
  }

  /** Others' turns leave a node's next command as it is. */
  lemma {:induction false} OthersLeavePc(cidrs: Name -> string, s: System, moves: seq<Move>, n: Name)
    requires Valid(s) && forall m <- moves :: m.node != n
    ensures PcOf(Exec(cidrs, s, moves), n) == PcOf(s, n)
    decreases |moves|
  {
    hide Step;
    if moves != [] { OthersLeavePc(cidrs, Turn(cidrs, s, moves[0]), moves[1..], n); }
  }

  /** A node's read of the shared list, any turns of other nodes, and its write. */
  ghost function Between(n: Name, others: seq<Move>): seq<Move> {
    [Move(n, AllocateSubnet, true)] + others + [Move(n, AllocateSubnet, true)]
  }

  lemma BetweenTurns(cidrs: Name -> string, s: System, n: Name, others: seq<Move>) returns (mid: System)
    requires Valid(s) && !PcOf(s, n).Idle? && forall m <- others :: m.node != n
    ensures Valid(mid) && mid == Exec(cidrs, Turn(cidrs, s, Move(n, AllocateSubnet, true)), others)
    ensures Exec(cidrs, s, Between(n, others)) == Turn(cidrs, mid, Move(n, AllocateSubnet, true))
    ensures PcOf(mid, n) == PcOf(Turn(cidrs, s, Move(n, AllocateSubnet, true)), n)
  {
    hide Turn, Exec;
    var go := Move(n, AllocateSubnet, true);
    var read := Turn(cidrs, s, go);
    mid := Exec(cidrs, read, others);
    ExecSplit(cidrs, s, [go] + others, [go]);
    ExecSplit(cidrs, s, [go], others);
    ExecOne(cidrs, s, go);
    ExecOne(cidrs, mid, go);
    OthersLeavePc(cidrs, read, others, n);
  }

  /** Registration, exactly: whatever other nodes do between a node's read of the shared list and its
      write, the write leaves the list that was read and the node's subnet. So the node's subnet is
      appended to the list as it is then exactly when that is still the list it read, and an entry
      made in between is lost. */
  lemma {:induction false} RegistrationExact(cidrs: Name -> string, s: System, n: Name, others: seq<Move>)
    requires SharedInv(s) && Reported(cidrs) && PcOf(s, n) == SharedGet && forall m <- others :: m.node != n
    ensures var read := Turn(cidrs, s, Move(n, AllocateSubnet, true));
            var seen := ListAt(s.kv, Shared());
            var now := ListAt(Exec(cidrs, read, others).kv, Shared());
            var t := Exec(cidrs, s, Between(n, others));
            && PcOf(t, n) == SubnetPut
            && ListAt(t.kv, Shared()) == seen + [cidrs(n)]
            && (ListAt(t.kv, Shared()) == now + [cidrs(n)] <==> now == seen)
            && (forall x <- now :: x in ListAt(t.kv, Shared()) <==> x in seen || x == cidrs(n))
  {
    hide Exec, KeyText, ListAt, Read, AppendText, Clean, GenerateIp, ParseNetwork, Token, Between;
    var mid := BetweenTurns(cidrs, s, n, others);
    var read := Turn(cidrs, s, Move(n, AllocateSubnet, true));
    TurnKeepsShared(cidrs, s, Move(n, AllocateSubnet, true));
    ExecKeepsShared(cidrs, read, others);
    assert Token(cidrs(n));
    StaleAppendExact(s.kv, mid.kv, Shared(), cidrs(n));
  }

  /** Deregistration writes from an earlier read as well: what it leaves is the list that was read
      without the node's subnet. An entry made in between is lost, and one removed in between is back. */
  lemma {:induction false} DeregistrationExact(cidrs: Name -> string, s: System, n: Name, others: seq<Move>)
    requires SharedInv(s) && Reported(cidrs) && PcOf(s, n) == UnlistGet && forall m <- others :: m.node != n
    ensures var read := Turn(cidrs, s, Move(n, AllocateSubnet, true));
            var seen := ListAt(s.kv, Shared());
            var now := ListAt(Exec(cidrs, read, others).kv, Shared());
            var t := Exec(cidrs, s, Between(n, others));
            && PcOf(t, n) == Idle
            && ListAt(t.kv, Shared()) == Without(seen, cidrs(n))
            && (forall x <- now :: x != cidrs(n) ==> (x in ListAt(t.kv, Shared()) <==> x in seen))
            && (forall x <- seen :: x != cidrs(n) ==> x in ListAt(t.kv, Shared()))
  {
    hide Exec, KeyText, ListAt, Read, AppendText, Clean, GenerateIp, ParseNetwork, Token, Between, Without;
    var mid := BetweenTurns(cidrs, s, n, others);
    var read := Turn(cidrs, s, Move(n, AllocateSubnet, true));
    TurnKeepsShared(cidrs, s, Move(n, AllocateSubnet, true));
    ExecKeepsShared(cidrs, read, others);
    WrittenList(s.kv, mid.kv, Shared(), cidrs(n));
    forall x: string
      ensures x in Without(ListAt(s.kv, Shared()), cidrs(n)) <==> x in ListAt(s.kv, Shared()) && x != cidrs(n)
    {
      InWithout(ListAt(s.kv, Shared()), cidrs(n), x);
    }
  }

  lemma {:induction false} InWithout(xs: seq<string>, y: string, x: string)
    ensures x in Without(xs, y) <==> x in xs && x != y
  {
    if xs != [] { InWithout(xs[1..], y, x); }
  }

  /** A list reduced in one store and written in another. */
  lemma {:induction false} WrittenList(seen: Store, now: Store, key: string, x: string)
    requires CleanAt(seen, key)
    ensures ListAt(Write(now, key, Join(Without(ListAt(seen, key), x), COMMA)), key) == Without(ListAt(seen, key), x)
  {
    var xs := Without(ListAt(seen, key), x);
    ReadClean(seen, key);
    WithoutGood(ListAt(seen, key), x);
    if xs != [] {
      JoinIsClean(xs);
      WriteList(now, key, xs);
    }
  }

  lemma {:induction false} RacerDone(cidrs: Name -> string, s: System, a: Name, b: Name)
    requires Valid(s) && a != b && PcOf(s, a) == SharedGet
    ensures var go, og := Move(a, AllocateSubnet, true), Move(b, AllocateSubnet, true);
            PcOf(Exec(cidrs, s, [og, go, go, og]), a) == SubnetPut
  {
    hide KeyText, ListAt, Read, AppendText, GenerateIp, ParseNetwork, Try, Exec;
    var go, og := Move(a, AllocateSubnet, true), Move(b, AllocateSubnet, true);
    var s1 := Turn(cidrs, s, og);
    var s2 := Turn(cidrs, s1, go);
    var s3 := Turn(cidrs, s2, go);
    ExecSplit(cidrs, s, [og], [go, go, og]);
    ExecSplit(cidrs, s1, [go], [go, og]);
    ExecSplit(cidrs, s2, [go], [og]);
    ExecOne(cidrs, s, og);
    ExecOne(cidrs, s1, go);
    ExecOne(cidrs, s2, go);
    ExecOne(cidrs, s3, og);
    assert [og] + [go, go, og] == [og, go, go, og] && [go] + [go, og] == [go, go, og] && [go] + [og] == [go, og];
  }

  lemma BetweenIs(n: Name, others: seq<Move>)
    ensures Between(n, others) == [Move(n, AllocateSubnet, true)] + others + [Move(n, AllocateSubnet, true)]
  {
  }

  /** Two nodes that read the shared list before either writes it: the first one's subnet is lost. */
  lemma LostUpdate(cidrs: Name -> string, kv: Store, a: Name, b: Name)
    requires a != b && Reported(cidrs) && cidrs(a) != cidrs(b) && CleanAt(kv, Shared())
    requires cidrs(a) !in ListAt(kv, Shared())
    ensures var go, og := Move(a, AllocateSubnet, true), Move(b, AllocateSubnet, true);
            var t := Exec(cidrs, System(kv, map[a := SharedGet, b := SharedGet]), [og, go, go, og]);
            && PcOf(t, a) == SubnetPut && PcOf(t, b) == SubnetPut
            && ListAt(t.kv, Shared()) == ListAt(kv, Shared()) + [cidrs(b)]
            && cidrs(a) !in ListAt(t.kv, Shared())
  {
    hide KeyText, ListAt, Read, Token, CleanAt, AppendText, Exec, Between, Step, Clean;
    var go, og := Move(a, AllocateSubnet, true), Move(b, AllocateSubnet, true);
    var s := System(kv, map[a := SharedGet, b := SharedGet]);
    BetweenIs(b, [go, go]);
    assert [og] + [go, go] + [og] == [og, go, go, og];
    RegistrationExact(cidrs, s, b, [go, go]);
    RacerDone(cidrs, s, a, b);
  }

  // ---------------------------------------------------------------- undisturbed operations

  /** Which commands succeed. An operation runs no command twice, so this is any outcome it can meet. */
  type Outcomes = Pc -> bool

  /** A node's commands, run `k` times over without another node's in between. */
  ghost function Solo(n: Name, cidr: string, kv: Store, pc: Pc, oks: Outcomes, k: nat): (Store, Pc)
    requires PcValid(pc)
    decreases k
  {
    if k == 0 then (kv, pc) else
      var r := Step(n, cidr, kv, pc, oks(pc));
      Solo(n, cidr, r.0, r.1, oks, k - 1)
  }

  /** One command more, and it ends as the rest does. */
  lemma {:induction false} SoloNext(n: Name, cidr: string, kv: Store, pc: Pc, oks: Outcomes, k: nat)
    requires PcValid(pc)
    ensures var r := Step(n, cidr, kv, pc, oks(pc));
            Solo(n, cidr, kv, pc, oks, k + 1) == Solo(n, cidr, r.0, r.1, oks, k)
  {
    hide Step;
  }

  lemma {:induction false} SoloDone(n: Name, cidr: string, kv: Store, pc: Pc, oks: Outcomes)
    requires PcValid(pc)
    ensures Solo(n, cidr, kv, pc, oks, 0) == (kv, pc)
  {
    hide Step;
  }

  /** The text put for a host: the list as it was read, and the host. */
  function HostPut(n: Name, kv: Store, c: Cidr, i: nat, oks: Outcomes): string
    requires Hosts(c, i)
  {
    Appended(kv, Used(n), GenerateIp(c, i), oks(IpGet(c, i)))
  }

  /** A host is passed over when it is seen to be listed, or when its write fails. */
  ghost predicate PassedOver(n: Name, kv: Store, c: Cidr, i: nat, oks: Outcomes)
    requires Hosts(c, i)
  {
    || (oks(IpList(c, i)) && GenerateIp(c, i) in ListAt(kv, Used(n)))
    || !oks(IpPut(c, i, HostPut(n, kv, c, i, oks)))
  }

  /** The search from host `i` on found the first host that is not passed over, or none. */
  ghost predicate Searched(n: Name, kv: Store, c: Cidr, i: nat, oks: Outcomes, found: Option<nat>, after: Store)
    requires Hosts(c, i)
  {
    match found
    case None => after == kv && forall j | i <= j <= HostCount(c) :: PassedOver(n, kv, c, j, oks)
    case Some(h) =>
      && i <= h <= HostCount(c) && !PassedOver(n, kv, c, h, oks) && after == kv[Used(n) := HostPut(n, kv, c, h, oks)]
      && forall j | i <= j < h :: PassedOver(n, kv, c, j, oks)
  }

  lemma SearchedOn(n: Name, kv: Store, c: Cidr, i: nat, oks: Outcomes, found: Option<nat>, after: Store)
    requires Hosts(c, i) && PassedOver(n, kv, c, i, oks)
    requires if Hosts(c, i + 1) then Searched(n, kv, c, i + 1, oks, found, after) else found.None? && after == kv
    ensures Searched(n, kv, c, i, oks, found, after)
  {
    hide PassedOver, HostPut, KeyText;
  }

  /** How many commands one host takes. */
  ghost function HostCommands(n: Name, kv: Store, c: Cidr, i: nat, oks: Outcomes): nat
    requires Hosts(c, i)
  {
    if oks(IpList(c, i)) && GenerateIp(c, i) in ListAt(kv, Used(n)) then 1 else 3
  }

  /** The commands for one host, and `m` more. */
  lemma {:induction false} SoloHost(n: Name, cidr: string, kv: Store, c: Cidr, i: nat, oks: Outcomes, m: nat)
    requires Hosts(c, i)
    ensures Solo(n, cidr, kv, IpList(c, i), oks, HostCommands(n, kv, c, i, oks) + m) ==
            if PassedOver(n, kv, c, i, oks) then Solo(n, cidr, kv, Try(c, i + 1), oks, m)
            else Solo(n, cidr, kv[Used(n) := HostPut(n, kv, c, i, oks)], Idle, oks, m)
  {
    hide KeyText, ListAt, Read, GenerateIp, AppendText, Join, Without, Solo, ParseNetwork;
    var k := HostCommands(n, kv, c, i, oks) + m;
    SoloNext(n, cidr, kv, IpList(c, i), oks, k - 1);
    if k != 1 + m {
      SoloNext(n, cidr, kv, IpGet(c, i), oks, 1 + m);
      SoloNext(n, cidr, kv, IpPut(c, i, HostPut(n, kv, c, i, oks)), oks, m);
    }
  }

  /** The search from host `i` on, undisturbed, whatever fails. */
  lemma {:induction false} SoloSearch(n: Name, cidr: string, kv: Store, c: Cidr, i: nat, oks: Outcomes)
    returns (k: nat, found: Option<nat>, after: Store)
    requires Hosts(c, i)
    ensures Solo(n, cidr, kv, IpList(c, i), oks, k) == (after, Idle) && Searched(n, kv, c, i, oks, found, after)
    decreases HostCount(c) - i
  {
    hide KeyText, ListAt, Read, GenerateIp, HostPut, Join, Without, Solo, PassedOver;
    k := HostCommands(n, kv, c, i, oks);
    if !PassedOver(n, kv, c, i, oks) {
      found, after := Some(i), kv[Used(n) := HostPut(n, kv, c, i, oks)];
      SoloHost(n, cidr, kv, c, i, oks, 0);
      SoloDone(n, cidr, after, Idle, oks);
    } else if Hosts(c, i + 1) {
      var m;
      m, found, after := SoloSearch(n, cidr, kv, c, i + 1, oks);
      SoloHost(n, cidr, kv, c, i, oks, m);
      k := k + m;
      SearchedOn(n, kv, c, i, oks, found, after);
    } else {
      found, after := None, kv;
      SoloHost(n, cidr, kv, c, i, oks, 0);
      SoloDone(n, cidr, kv, Idle, oks);
      SearchedOn(n, kv, c, i, oks, found, after);
    }
  }

  /** Undisturbed, the commands of `allocateIp` add up to what `Ipam.AllocateIp` is proved to do, and
      whatever fails: the first host is appended that is not passed over. A failed read of the list
      before the write leaves that host alone in it. */
  lemma SoloAllocates(n: Name, cidr: string, kv: Store, c: Cidr, oks: Outcomes)
    returns (k: nat, found: Option<nat>, after: Store)
    requires Stored(kv) && NetworkOf(kv, n) == Some(c) && Hosts(c, 1)
    ensures Solo(n, cidr, kv, NetGet, oks, k) == (after, Idle)
    ensures found.None? ==> after == kv
    ensures if oks(NetGet) then found.Some? ==> 1 <= found.value <= HostCount(c) else found.None?
    // Of the hosts up to the one found, or of all when none is, exactly that one is unlisted, or its list
    // unread, and its write goes through.
    ensures oks(NetGet) ==>
      forall j: nat | 1 <= j <= HostCount(c) && (found.Some? ==> j <= found.value) ::
        found == Some(j) <==>
          && (GenerateIp(c, j) !in ViewOf(kv)[Addresses(n)] || !oks(IpList(c, j)))
          && oks(IpPut(c, j, Appended(kv, Used(n), GenerateIp(c, j), oks(IpGet(c, j)))))
    ensures found.Some? ==>
      Changed(kv, after, Addresses(n),
              Seen(ViewOf(kv)[Addresses(n)], oks(IpGet(c, found.value))) + [GenerateIp(c, found.value)])
    ensures (forall pc: Pc :: oks(pc)) ==>
      FirstFit(c, ViewOf(kv)[Addresses(n)]) == if found.Some? then Allocated(GenerateIp(c, found.value)) else Refused
  {
    hide KeyText, ListAt, Read, GenerateIp, Join, Without, Solo, FirstFree, ParseNetwork, Stored, ViewOf, PassedOver,
         Appended;
    k, found, after := 1, None, kv;
    if oks(NetGet) {
      k, found, after := SoloSearch(n, cidr, kv, c, 1, oks);
      k := k + 1;
      SearchedHosts(n, kv, c, oks, found, after);
      if found.Some? {
        HostTextIsToken(c, found.value);
        AppendEntry(kv, Addresses(n), GenerateIp(c, found.value), oks(IpGet(c, found.value)));
      }
      if forall pc: Pc :: oks(pc) { SearchIsFirstFit(n, kv, c, oks, found, after); }
    } else {
      EmptyIsNoNetwork();
      SoloDone(n, cidr, kv, Idle, oks);
    }
    SoloNext(n, cidr, kv, NetGet, oks, k - 1);
  }

  lemma SearchedHosts(n: Name, kv: Store, c: Cidr, oks: Outcomes, found: Option<nat>, after: Store)
    requires Hosts(c, 1) && Searched(n, kv, c, 1, oks, found, after)
    ensures found.None? ==> after == kv
    ensures found.Some? ==> 1 <= found.value <= HostCount(c)
    ensures forall j: nat | 1 <= j <= HostCount(c) && (found.Some? ==> j <= found.value) ::
      found == Some(j) <==>
        && (GenerateIp(c, j) !in ViewOf(kv)[Addresses(n)] || !oks(IpList(c, j)))
        && oks(IpPut(c, j, Appended(kv, Used(n), GenerateIp(c, j), oks(IpGet(c, j)))))
  {
    hide KeyText, ListAt, GenerateIp, Appended;
    ViewAt(kv, Addresses(n));
    forall j: nat | 1 <= j <= HostCount(c)
      ensures PassedOver(n, kv, c, j, oks) <==>
              !((GenerateIp(c, j) !in ViewOf(kv)[Addresses(n)] || !oks(IpList(c, j)))
                && oks(IpPut(c, j, Appended(kv, Used(n), GenerateIp(c, j), oks(IpGet(c, j))))))
    {
    }
  }

  lemma {:induction false} SearchIsFirstFit(n: Name, kv: Store, c: Cidr, oks: Outcomes, found: Option<nat>,
                                            after: Store)
    requires Hosts(c, 1) && Searched(n, kv, c, 1, oks, found, after) && forall pc: Pc :: oks(pc)
    ensures FirstFree(c, ViewOf(kv)[Addresses(n)], 1) == found
  {
    hide KeyText, ListAt, GenerateIp, FirstFree, HostPut;
    ViewAt(kv, Addresses(n));
    var used := ListAt(kv, Used(n));
    forall j | 1 <= j <= HostCount(c) ensures PassedOver(n, kv, c, j, oks) <==> GenerateIp(c, j) in used {}
  }

  lemma AppendedText(kv: Store, k: Key, value: string, read: bool)
    requires Stored(kv) && Token(value)
    ensures Appended(kv, KeyText(k), value, read) == Join(Seen(ViewOf(kv)[k], read) + [value], COMMA)
  {
    hide KeyText;
    StoredAt(kv, k);
    ReadClean(kv, KeyText(k));
    if read { JoinAppend(ListAt(kv, KeyText(k)), value, COMMA); }
    assert Join([value], COMMA) == value && [] + [value] == [value];
  }

  /** Those of `allocateSubnet`, whatever fails. */
  lemma SoloRegisters(n: Name, cidr: string, kv: Store, oks: Outcomes) returns (k: nat, after: Store)
    requires Stored(kv) && Token(cidr)
    ensures Solo(n, cidr, kv, SubnetGet, oks, k) == (after, Idle)
    ensures
      var all := Seen(ViewOf(kv)[Subnets], oks(SharedGet)) + [cidr];
      if oks(SubnetGet) && ViewOf(kv)[NodeSubnet(n)] != [] then after == kv
      else if !oks(SharedPut(Join(all, COMMA))) then after == kv
      else
        && Stored(after) && Foreign(after) == Foreign(kv)
        && ViewOf(after) ==
           if oks(SubnetPut) then ViewOf(kv)[Subnets := all][NodeSubnet(n) := [cidr]]
           else if oks(UndoGet) && oks(UndoPut(Join(Without(all, cidr), COMMA))) then
             ViewOf(kv)[Subnets := Without(all, cidr)]
           else ViewOf(kv)[Subnets := all]
  {
    hide KeyText, ListAt, Read, Join, Without, Solo, Stored, ViewOf, Token, Foreign, Appended, AppendText;
    ViewAt(kv, NodeSubnet(n));
    ReadEntry(kv, NodeSubnet(n));
    var text := Appended(kv, Shared(), cidr, oks(SharedGet));
    AppendedIs(kv, Shared(), cidr, oks(SharedGet));
    AppendedText(kv, Subnets, cidr, oks(SharedGet));
    k, after := 1, kv;
    if oks(SubnetGet) && ViewOf(kv)[NodeSubnet(n)] != [] {
      SoloDone(n, cidr, kv, Idle, oks);
    } else if !oks(SharedPut(text)) {
      k := 3;
      SoloDone(n, cidr, kv, Idle, oks);
      SoloNext(n, cidr, kv, SharedPut(text), oks, 0);
      SoloNext(n, cidr, kv, SharedGet, oks, 1);
    } else {
      k, after := SoloSecond(n, cidr, kv, oks);
      SoloNext(n, cidr, kv, SharedPut(text), oks, k);
      SoloNext(n, cidr, kv, SharedGet, oks, k + 1);
      k := k + 3;
    }
    SoloNext(n, cidr, kv, SubnetGet, oks, k - 1);
  }

  lemma AppendedIs(kv: Store, key: string, value: string, read: bool)
    ensures Appended(kv, key, value, read) == if read then AppendText(Read(kv, key), value) else value
  {
  }

  /** The second write, or the rollback of the first. */
  lemma SoloSecond(n: Name, cidr: string, kv: Store, oks: Outcomes) returns (k: nat, after: Store)
    requires Stored(kv) && Token(cidr)
    ensures var mid := kv[Shared() := Appended(kv, Shared(), cidr, oks(SharedGet))];
            Solo(n, cidr, mid, SubnetPut, oks, k) == (after, Idle)
    ensures var all := Seen(ViewOf(kv)[Subnets], oks(SharedGet)) + [cidr];
            && Stored(after) && Foreign(after) == Foreign(kv)
            && ViewOf(after) ==
               if oks(SubnetPut) then ViewOf(kv)[Subnets := all][NodeSubnet(n) := [cidr]]
               else if oks(UndoGet) && oks(UndoPut(Join(Without(all, cidr), COMMA))) then
                 ViewOf(kv)[Subnets := Without(all, cidr)]
               else ViewOf(kv)[Subnets := all]
  {
    hide KeyText, ListAt, Read, Join, Without, Solo, Stored, ViewOf, Token, Foreign, Appended;
    var mid := kv[Shared() := Appended(kv, Shared(), cidr, oks(SharedGet))];
    ViewAt(kv, Subnets);
    var all := Seen(ViewOf(kv)[Subnets], oks(SharedGet)) + [cidr];
    AppendEntry(kv, Subnets, cidr, oks(SharedGet));
    ViewAt(mid, Subnets);
    var undo := Join(Without(ListAt(mid, Shared()), cidr), COMMA);
    k, after := 1, mid;
    if oks(SubnetPut) {
      after := mid[Own(n) := cidr];
      PutEntry(mid, NodeSubnet(n), cidr);
    } else if !oks(UndoGet) {
      k := 2;
      SoloNext(n, cidr, mid, UndoGet, oks, 0);
    } else {
      k := 3;
      RemoveEntry(mid, Subnets, cidr);
      Rewritten(ViewOf(kv), Subnets, all, Without(all, cidr));
      if oks(UndoPut(undo)) { after := Write(mid, Shared(), undo); }
      SoloNext(n, cidr, mid, UndoPut(undo), oks, 0);
      SoloNext(n, cidr, mid, UndoGet, oks, 1);
    }
    SoloDone(n, cidr, after, Idle, oks);
    SoloNext(n, cidr, mid, SubnetPut, oks, k - 1);
  }

  /** Those of `releaseSubnet`, whatever fails. */
  lemma SoloReleases(n: Name, cidr: string, kv: Store, oks: Outcomes) returns (k: nat, after: Store)
    requires Stored(kv)
    ensures Solo(n, cidr, kv, SubnetDel, oks, k) == (after, Idle)
    ensures
      var left := Without(ViewOf(kv)[Subnets], cidr);
      if !oks(SubnetDel) then after == kv
      else if oks(UnlistGet) && oks(UnlistPut(Join(left, COMMA))) then
        && Stored(after) && Foreign(after) == Foreign(kv)
        && ViewOf(after) == ViewOf(kv)[NodeSubnet(n) := []][Subnets := left]
      else Changed(kv, after, NodeSubnet(n), [])
  {
    hide KeyText, ListAt, Read, Join, Without, Solo, Stored, ViewOf, Foreign;
    var mid := kv - {Own(n)};
    DelEntry(kv, NodeSubnet(n));
    RemoveEntry(mid, Subnets, cidr);
    ViewAt(mid, Subnets);
    var text := Join(Without(ListAt(mid, Shared()), cidr), COMMA);
    k, after := 1, kv;
    if oks(SubnetDel) {
      k, after := 2, mid;
      if oks(UnlistGet) {
        k := 3;
        if oks(UnlistPut(text)) { after := Write(mid, Shared(), text); }
        SoloNext(n, cidr, mid, UnlistPut(text), oks, 0);
      }
      SoloNext(n, cidr, mid, UnlistGet, oks, k - 2);
    }
    SoloDone(n, cidr, after, Idle, oks);
    SoloNext(n, cidr, kv, SubnetDel, oks, k - 1);
  }

  /** Those of `releaseIp`, whatever fails. */
  lemma SoloFrees(n: Name, cidr: string, kv: Store, ip: string, oks: Outcomes) returns (k: nat, after: Store)
    requires Stored(kv)
    ensures Solo(n, cidr, kv, FreeGet(ip), oks, k) == (after, Idle)
    ensures
      var left := Without(ViewOf(kv)[Addresses(n)], ip);
      if oks(FreeGet(ip)) && oks(FreePut(Join(left, COMMA))) then Changed(kv, after, Addresses(n), left)
        else after == kv
  {
    hide KeyText, ListAt, Read, Join, Without, Solo, Stored, ViewOf, Foreign;
    RemoveEntry(kv, Addresses(n), ip);
    ViewAt(kv, Addresses(n));
    var text := Join(Without(ListAt(kv, Used(n)), ip), COMMA);
    k, after := 1, kv;
    if oks(FreeGet(ip)) {
      k := 2;
      if oks(FreePut(text)) { after := Write(kv, Used(n), text); }
      SoloNext(n, cidr, kv, FreePut(text), oks, 0);
    }
    SoloDone(n, cidr, after, Idle, oks);
    SoloNext(n, cidr, kv, FreeGet(ip), oks, k - 1);
  }
}
