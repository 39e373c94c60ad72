/** The etcd keys of src/cni/storage.cc and src/ipam/ipam.cc: their texts, and the fact that no two
    logical entries share one. */
module Keys {
  import opened Text
  import opened Wrappers

  /** A key component: a node, container, namespace or device name. */
  predicate IsName(s: string) {
    s != "" && '/' !in s && ',' !in s && '\n' !in s
  }

  type Name = s: string | IsName(s) witness "n"

  /** The name the root namespace is stored under. */
  const HOST: Name := "host"

  datatype Key =
    | Subnets
    | NodeSubnet(node: Name)
    | Addresses(node: Name)
    | NetnsOf(node: Name, pod: Name)
    | PodIn(node: Name, netns: Name)
    | Pods(node: Name)
    | Nics(node: Name, pod: Name)
    | Addrs(node: Name, pod: Name, nic: Name)
    | Routes(node: Name, pod: Name, nic: Name)
    | Vtep(node: Name)
  {
    /** The entry belongs to one node. */
    predicate Of(n: Name) { this != Subnets && node == n }
  }

  function KeyText(k: Key): (s: string)
    ensures s != ""
  {
    match k
    case Subnets => "/ohno/subnets"
    case NodeSubnet(n) => "/ohno/subnets" + "/" + n
    case Addresses(n) => "/ohno/addresses" + "/" + n
    case NetnsOf(n, p) => "/ohno/node" + "/" + n + "/pod/" + p + "/netns"
    case PodIn(n, s) => "/ohno/node" + "/" + n + "/netns/" + s + "/pod"
    case Pods(n) => "/ohno/node" + "/" + n + "/pod"
    case Nics(n, p) => "/ohno/node" + "/" + n + "/pod/" + p + "/nic"
    case Addrs(n, p, i) => "/ohno/node" + "/" + n + "/pod/" + p + "/nic/" + i + "/addr"
    case Routes(n, p, i) => "/ohno/node" + "/" + n + "/pod/" + p + "/nic/" + i + "/route"
    case Vtep(n) => "/ohno/node" + "/" + n + "/vtep"
  }

  /** The ten key texts, as they appear in etcd. */
  lemma KeySpelling(k: Key)
    ensures KeyText(k) ==
            match k
            case Subnets => "/ohno/subnets"
            case NodeSubnet(n) => "/ohno/subnets/" + n
            case Addresses(n) => "/ohno/addresses/" + n
            case NetnsOf(n, p) => "/ohno/node/" + n + "/pod/" + p + "/netns"
            case PodIn(n, s) => "/ohno/node/" + n + "/netns/" + s + "/pod"
            case Pods(n) => "/ohno/node/" + n + "/pod"
            case Nics(n, p) => "/ohno/node/" + n + "/pod/" + p + "/nic"
            case Addrs(n, p, i) => "/ohno/node/" + n + "/pod/" + p + "/nic/" + i + "/addr"
            case Routes(n, p, i) => "/ohno/node/" + n + "/pod/" + p + "/nic/" + i + "/route"
            case Vtep(n) => "/ohno/node/" + n + "/vtep"
  {
    assert "/ohno/subnets" + "/" == "/ohno/subnets/";
    assert "/ohno/addresses" + "/" == "/ohno/addresses/";
    assert "/ohno/node" + "/" == "/ohno/node/";
  }

  ghost function Components(k: Key): seq<string> {
    ["", "ohno"] +
    match k
    case Subnets => ["subnets"]
    case NodeSubnet(n) => ["subnets", n]
    case Addresses(n) => ["addresses", n]
    case NetnsOf(n, p) => ["node", n, "pod", p, "netns"]
    case PodIn(n, s) => ["node", n, "netns", s, "pod"]
    case Pods(n) => ["node", n, "pod"]
    case Nics(n, p) => ["node", n, "pod", p, "nic"]
    case Addrs(n, p, i) => ["node", n, "pod", p, "nic", i, "addr"]
    case Routes(n, p, i) => ["node", n, "pod", p, "nic", i, "route"]
    case Vtep(n) => ["node", n, "vtep"]
  }

  lemma ComponentsInjective(k: Key, l: Key)
    requires Components(k) == Components(l)
    ensures k == l
  {
    var a, b := Components(k), Components(l);
    assert a[2] == b[2];
    assert |a| == |b|;
    assert |a| > 3 ==> a[3] == b[3];
    assert |a| > 4 ==> a[4] == b[4];
    assert |a| > 5 ==> a[5] == b[5];
    assert |a| > 6 ==> a[6] == b[6];
    assert |a| > 7 ==> a[7] == b[7];
    assert |a| > 8 ==> a[8] == b[8];
  }

  // The components of a key grow from the left, as its text does.

  ghost const OHNO: seq<string> := ["", "ohno"]

  lemma {:induction false} Grow(xs: seq<string>, s: string, x: string)
    requires xs != [] && Join(xs, '/') == s
    ensures Join(xs + [x], '/') == s + "/" + x
  {
    JoinAppend(xs, x, '/');
  }

  lemma Roots()
    ensures Join(OHNO + ["subnets"], '/') == "/ohno/subnets"
    ensures Join(OHNO + ["addresses"], '/') == "/ohno/addresses"
    ensures Join(OHNO + ["node"], '/') == "/ohno/node"
  {
    assert Join([""] + ["ohno"], '/') == "/ohno" by { Grow([""], "", "ohno"); }
    assert OHNO == [""] + ["ohno"];
    Grow(OHNO, "/ohno", "subnets");
    Grow(OHNO, "/ohno", "addresses");
    Grow(OHNO, "/ohno", "node");
  }

  lemma NodePath(n: string)
    ensures Join(OHNO + ["node", n], '/') == "/ohno/node" + "/" + n
  {
    Roots();
    Grow(OHNO + ["node"], "/ohno/node", n);
    assert OHNO + ["node"] + [n] == OHNO + ["node", n];
  }

  /** Two more components, the first of them a fixed word. */
  lemma {:induction false} GrowNamed(xs: seq<string>, s: string, word: string, x: string)
    requires xs != [] && Join(xs, '/') == s
    ensures Join(xs + [word, x], '/') == s + ("/" + word + "/") + x
  {
    Grow(xs, s, word);
    Grow(xs + [word], s + "/" + word, x);
    assert xs + [word] + [x] == xs + [word, x];
    assert s + "/" + word + "/" + x == s + ("/" + word + "/") + x;
  }

  lemma {:induction false} GrowLast(xs: seq<string>, s: string, word: string)
    requires xs != [] && Join(xs, '/') == s
    ensures Join(xs + [word], '/') == s + ("/" + word)
  {
    Grow(xs, s, word);
    assert s + "/" + word == s + ("/" + word);
  }

  lemma Words()
    ensures "/" + "pod" + "/" == "/pod/" && "/" + "netns" + "/" == "/netns/"
    ensures "/" + "pod" == "/pod" && "/" + "netns" == "/netns" && "/" + "nic" == "/nic"
  {
  }

  lemma PodPath(n: string, kind: string, p: string, last: string)
    ensures Join(OHNO + ["node", n, kind, p, last], '/')
         == "/ohno/node" + "/" + n + ("/" + kind + "/") + p + ("/" + last)
  {
    NodePath(n);
    var a := OHNO + ["node", n];
    GrowNamed(a, "/ohno/node" + "/" + n, kind, p);
    GrowLast(a + [kind, p], "/ohno/node" + "/" + n + ("/" + kind + "/") + p, last);
    assert a + [kind, p] + [last] == OHNO + ["node", n, kind, p, last];
  }

  lemma NicPath(n: string, p: string, i: string, last: string)
    ensures Join(OHNO + ["node", n, "pod", p, "nic", i, last], '/')
         == "/ohno/node" + "/" + n + "/pod/" + p + "/nic/" + i + ("/" + last)
  {
    PodPath(n, "pod", p, "nic");
    assert "/" + "pod" + "/" == "/pod/";
    var a := OHNO + ["node", n, "pod", p, "nic"];
    var t := "/ohno/node" + "/" + n + "/pod/" + p;
    Grow(a, t + ("/" + "nic"), i);
    assert t + ("/" + "nic") + "/" + i == t + "/nic/" + i;
    GrowLast(a + [i], t + "/nic/" + i, last);
    assert a + [i] + [last] == OHNO + ["node", n, "pod", p, "nic", i, last];
  }

  lemma IpamKeyIsPath(k: Key)
    requires k.Subnets? || k.NodeSubnet? || k.Addresses?
    ensures KeyText(k) == Join(Components(k), '/')
  {
    Roots();
    match k
    case Subnets =>
    case NodeSubnet(n) =>
      Grow(OHNO + ["subnets"], "/ohno/subnets", n);
      assert OHNO + ["subnets"] + [n] == Components(k);
    case Addresses(n) =>
      Grow(OHNO + ["addresses"], "/ohno/addresses", n);
      assert OHNO + ["addresses"] + [n] == Components(k);
  }

  lemma NodeKeyIsPath(k: Key)
    requires k.Pods? || k.Vtep?
    ensures KeyText(k) == Join(Components(k), '/')
  {
    var n := k.node;
    NodePath(n);
    var last := if k.Pods? then "pod" else "vtep";
    GrowLast(OHNO + ["node", n], "/ohno/node" + "/" + n, last);
    assert OHNO + ["node", n] + [last] == Components(k);
  }

  lemma PodKeyIsPath(k: Key)
    requires k.NetnsOf? || k.PodIn? || k.Nics?
    ensures KeyText(k) == Join(Components(k), '/')
  {
    Words();
    if k.PodIn? {
      PodPath(k.node, "netns", k.netns, "pod");
    } else {
      PodPath(k.node, "pod", k.pod, if k.Nics? then "nic" else "netns");
    }
  }

  lemma NicKeyIsPath(k: Key)
    requires k.Addrs? || k.Routes?
    ensures KeyText(k) == Join(Components(k), '/')
  {
    if k.Addrs? {
      NicPath(k.node, k.pod, k.nic, "addr");
    } else {
      NicPath(k.node, k.pod, k.nic, "route");
    }
  }

  lemma ComponentsSplittable(k: Key)
    ensures Splittable(Components(k), '/')
  {
  }

  /** The text of a key splits back into its components. */
  lemma TokensOfKey(k: Key)
    ensures Tokens(KeyText(k), '/') == Components(k)
  {
    var t := KeyText(k);
    assert t == Join(Components(k), '/') by {
      if k.Subnets? || k.NodeSubnet? || k.Addresses? { IpamKeyIsPath(k); }
      else if k.Pods? || k.Vtep? { NodeKeyIsPath(k); }
      else if k.NetnsOf? || k.PodIn? || k.Nics? { PodKeyIsPath(k); }
      else { NicKeyIsPath(k); }
    }
    ComponentsSplittable(k);
    TokensOfJoin(Components(k), '/');
  }

  /** Key framing: all ten key builders are injective and pairwise disjoint, so an operation on one
      logical entry never reads or writes another. */
  lemma KeyTextInjective(k: Key, l: Key)
    requires KeyText(k) == KeyText(l)
    ensures k == l
  {
    TokensOfKey(k);
    TokensOfKey(l);
    ComponentsInjective(k, l);
  }

  // ---------------------------------------------------------------- namespaces

  const PATH_NAMESPACE: string := "/var/run/netns"

  predicate OccursAt(p: string, s: string, i: nat) {
    i + |p| <= |s| && s[i..i + |p|] == p
  }

  predicate Occurs(p: string, s: string) {
    exists i | 0 <= i <= |s| :: OccursAt(p, s, i)
  }

  /** `Nic::simpleNetns`: the text after the mount directory; None is `substr` failing on the bare
      directory name. */
  function SimpleNetns(netns: string): Option<string> {
    if !Occurs(PATH_NAMESPACE, netns) then Some(netns)
    else if |netns| < |PATH_NAMESPACE| + 1 then None
    else Some(netns[|PATH_NAMESPACE| + 1..])
  }

  /** A CNI_NETNS value whose short form can be a key component. */
  predicate IsNetns(netns: string) {
    var s := SimpleNetns(netns);
    s.Some? && IsName(s.value) && ',' !in netns && '\n' !in netns && netns != ""
  }

  function ShortNetns(netns: string): Name
    requires IsNetns(netns)
  {
    SimpleNetns(netns).value
  }

  /** Both spellings of a namespace reach one reverse-index key. */
  lemma BothSpellings(name: Name)
    ensures IsNetns(name) && ShortNetns(name) == name
    ensures IsNetns(PATH_NAMESPACE + "/" + name) && ShortNetns(PATH_NAMESPACE + "/" + name) == name
  {
    var full := PATH_NAMESPACE + "/" + name;
    assert OccursAt(PATH_NAMESPACE, full, 0);
    assert full[|PATH_NAMESPACE| + 1..] == name;
    forall i | 0 <= i <= |name|
      ensures !OccursAt(PATH_NAMESPACE, name, i)
    {
      assert PATH_NAMESPACE[0] == '/';
      assert i < |name| ==> name[i] in name;
    }
  }

  /** The short name is cut at a fixed place, behind as many characters as the mount directory and a
      slash have, wherever in the text that directory is found. */
  lemma SimpleNetnsExact(netns: string)
    ensures (exists before: string, after: string :: netns == before + "/var/run/netns" + after) <==>
            Occurs(PATH_NAMESPACE, netns)
    ensures !Occurs(PATH_NAMESPACE, netns) ==> SimpleNetns(netns) == Some(netns)
    ensures Occurs(PATH_NAMESPACE, netns) ==>
      SimpleNetns(netns) == if |netns| == 14 then None else Some(netns[15..])
  {
    assert |PATH_NAMESPACE| == 14;
    if Occurs(PATH_NAMESPACE, netns) {
      var i :| 0 <= i <= |netns| && OccursAt(PATH_NAMESPACE, netns, i);
      assert netns == netns[..i] + "/var/run/netns" + netns[i + 14..];
    }
    forall before: string, after: string | netns == before + "/var/run/netns" + after
      ensures OccursAt(PATH_NAMESPACE, netns, |before|)
    {
      assert netns[|before|..|before| + 14] == "/var/run/netns";
    }
  }
}
