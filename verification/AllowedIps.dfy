/**
 The table of allowed IPs: two path-compressed binary tries, updated in place through parent
 slots, with every peer's entries threaded on a list of its own.

 The trie is made of heap nodes.  A ghost field mirrors the mutable fields of all of them in a
 value, a `Graph`; the invariants and what each mutation does to them are proved on graphs.
 */
module AllowedIps {
  import opened Basics
  import opened AddressBits

  datatype Prefix = Prefix(bits: Bits, cidr: nat)

  /** Where a node hangs: in the root slot of its address family, or in a child slot. */
  datatype ParentSlot = Detached | RootSlot | ChildSlot(node: TrieEntry, bit: bool)

  class Peer {
    var trieEntries: seq<TrieEntry>

    constructor ()
      ensures trieEntries == []
    {
      trieEntries := [];
    }
  }

  class TrieEntry {
    var peer: Peer?
    var child0: TrieEntry?
    var child1: TrieEntry?
    var parent: ParentSlot
    const cidr: nat
    const bits: Bits

    constructor (peer: Peer?, ip: Bits, cidr: nat)
      requires cidr <= |ip|
      ensures this.peer == peer && parent == Detached && child0 == null && child1 == null
      ensures this.cidr == cidr && bits == Mask(ip, cidr)
    {
      this.peer, parent, this.cidr, bits := peer, Detached, cidr, Mask(ip, cidr);
      child0, child1 := null, null;
    }

    ghost function Read(): Links
      reads this
    {
      Links(peer, child0, child1, parent)
    }

    ghost function Key(): Prefix {
      Prefix(bits, cidr)
    }

    function Child(bit: bool): TrieEntry?
      reads this
    {
      if bit then child1 else child0
    }

    /** The node's prefix is a prefix of `key`. */
    ghost predicate Covers(key: Bits) {
      cidr <= |bits| && cidr <= |key| && bits[..cidr] == key[..cidr]
    }

    ghost predicate WellFormed() {
      |bits| in {32, 128} && cidr <= |bits| && bits == Mask(bits, cidr)
    }
  }

  /** The mutable fields of one node. */
  datatype Links = Links(peer: Peer?, child0: TrieEntry?, child1: TrieEntry?, parent: ParentSlot) {
    ghost function Child(bit: bool): TrieEntry? {
      if bit then child1 else child0
    }

    ghost function WithChild(bit: bool, c: TrieEntry?): Links {
      if bit then this.(child1 := c) else this.(child0 := c)
    }
  }

  /** The mutable fields of a whole trie. */
  datatype Graph = Graph(root4: TrieEntry?, root6: TrieEntry?, links: map<TrieEntry, Links>) {
    ghost function Root(width: nat): TrieEntry? {
      if width == 32 then root4 else root6
    }
  }

  type Lists = map<Peer, seq<TrieEntry>>

  type Entries = map<Prefix, Peer>

  // ---------------------------------------------------------------- invariants

  /** The prefix of `c` is longer than that of `n`, extends it, and goes on with `bit`. */
  ghost predicate Below(n: TrieEntry, bit: bool, c: TrieEntry) {
    |c.bits| == |n.bits| && n.cidr < c.cidr <= |c.bits| && n.Covers(c.bits) && c.bits[n.cidr] == bit
  }

  ghost predicate DownOk(g: Graph, n: TrieEntry, bit: bool)
    requires n in g.links
  {
    var c := g.links[n].Child(bit);
    c != null ==> c in g.links && Below(n, bit, c) && g.links[c].parent == ChildSlot(n, bit)
  }

  /** The back-pointer of `n` names the slot that holds `n`. */
  ghost predicate UpOk(g: Graph, n: TrieEntry)
    requires n in g.links
  {
    match g.links[n].parent
    case Detached => false
    case RootSlot => g.Root(|n.bits|) == n
    case ChildSlot(p, bit) => p in g.links && g.links[p].Child(bit) == n
  }

  ghost predicate NodeOk(g: Graph, n: TrieEntry)
    requires n in g.links
  {
    n.WellFormed() && DownOk(g, n, false) && DownOk(g, n, true) && UpOk(g, n)
  }

  ghost predicate RootOk(g: Graph, width: nat) {
    var r := g.Root(width);
    r != null ==> r in g.links && |r.bits| == width && g.links[r].parent == RootSlot
  }

  /** No two nodes stand for the same prefix. */
  ghost predicate UniqueKeys(g: Graph) {
    forall n, m :: n in g.links && m in g.links && n.Key() == m.Key() ==> n == m
  }

  ghost predicate Shape(g: Graph) {
    && RootOk(g, 32) && RootOk(g, 128)
    && UniqueKeys(g)
    && (forall n :: n in g.links ==> NodeOk(g, n))
  }

  lemma ShapeUnique(g: Graph)
    requires Shape(g)
    ensures UniqueKeys(g)
  {
  }

  /** A node without a peer is there only to branch. */
  ghost predicate GlueOk(l: Links) {
    l.peer == null ==> l.child0 != null && l.child1 != null
  }

  ghost predicate Trie(g: Graph) {
    Shape(g) && forall n :: n in g.links ==> GlueOk(g.links[n])
  }

  lemma TrieShape(g: Graph)
    requires Trie(g)
    ensures Shape(g) && UniqueKeys(g)
  {
  }

  /** Every peer's list holds exactly the peer's nodes, each once. */
  ghost predicate ListsOk(g: Graph, lists: Lists) {
    && (forall p :: p in lists ==> NoDuplicates(lists[p]) && forall n :: n in lists[p] ==> n in g.links && g.links[n].peer == p)
    && (forall n :: n in g.links && g.links[n].peer != null ==> g.links[n].peer in lists && n in lists[g.links[n].peer])
  }

  /** `entries` is what the trie stores, and for whom. */
  ghost predicate Stores(g: Graph, entries: Entries) {
    && (forall n :: n in g.links && g.links[n].peer != null ==> n.Key() in entries && entries[n.Key()] == g.links[n].peer)
    && (forall k :: k in entries ==> exists n :: n in g.links && n.Key() == k && g.links[n].peer != null)
  }

  // ---------------------------------------------------------------- reference

  /** The masked prefix made of the first `n` bits of `ip`. */
  ghost function PrefixOf(ip: Bits, n: nat): Prefix
    requires n <= |ip|
  {
    Prefix(Mask(ip, n), n)
  }

  /** Longest-prefix match among prefixes of at most `n` bits: the reference a lookup is held to. */
  ghost function LongestMatch(entries: Entries, ip: Bits, n: nat): Peer?
    requires n <= |ip|
  {
    if PrefixOf(ip, n) in entries then entries[PrefixOf(ip, n)]
    else if n == 0 then null
    else LongestMatch(entries, ip, n - 1)
  }

  lemma {:induction false} LongestMatchIs(entries: Entries, ip: Bits, n: nat, c: int)
    requires -1 <= c <= n <= |ip|
    requires c >= 0 ==> PrefixOf(ip, c) in entries
    requires forall j :: c < j <= n ==> PrefixOf(ip, j) !in entries
    ensures LongestMatch(entries, ip, n) == if c < 0 then null else entries[PrefixOf(ip, c)]
  {
    if c < n && n > 0 {
      LongestMatchIs(entries, ip, n - 1, c);
    }
  }

  // ---------------------------------------------------------------- prefixes

  lemma BelowTransitive(p: TrieEntry, bit: bool, n: TrieEntry, bit': bool, c: TrieEntry)
    requires Below(p, bit, n) && Below(n, bit', c)
    ensures Below(p, bit, c)
  {
    BelowCovers(p, bit, n, c.bits);
  }

  lemma BelowCovers(p: TrieEntry, bit: bool, c: TrieEntry, key: Bits)
    requires Below(p, bit, c) && c.Covers(key)
    ensures p.Covers(key) && key[p.cidr] == bit
  {
    assert c.bits[..c.cidr][..p.cidr] == c.bits[..p.cidr] && key[..c.cidr][..p.cidr] == key[..p.cidr];
    assert c.bits[..c.cidr][p.cidr] == c.bits[p.cidr] && key[..c.cidr][p.cidr] == key[p.cidr];
  }

  /** A node that covers `ip` stands for a prefix of `ip`. */
  lemma CoveringKey(n: TrieEntry, ip: Bits)
    requires n.WellFormed() && |n.bits| == |ip| && n.Covers(ip)
    ensures n.Key() == PrefixOf(ip, n.cidr)
  {
    MaskOfCovered(n.bits, ip, n.cidr);
  }

  // ---------------------------------------------------------------- descending

  /** Descending from the root along `key` visits `visited` and stands at `next`. */
  ghost predicate Descent(g: Graph, key: Bits, width: nat, visited: set<TrieEntry>, next: TrieEntry?) {
    && visited <= g.links.Keys
    && (g.Root(width) == next || g.Root(width) in visited)
    && (forall v :: v in visited ==>
          |v.bits| == width && v.Covers(key) && (v.cidr < |key| ==>
            var c := g.links[v].Child(key[v.cidr]); c == null || c in visited || c == next))
  }

  /** A finished descent has visited every node whose prefix covers `key`. */
  lemma {:induction false} DescentComplete(g: Graph, key: Bits, width: nat, visited: set<TrieEntry>, next: TrieEntry?, m: TrieEntry)
    requires Shape(g) && Descent(g, key, width, visited, next)
    requires next != null ==> !next.Covers(key)
    requires m in g.links && |m.bits| == width && m.Covers(key)
    ensures m in visited
    decreases m.cidr
  {
    assert NodeOk(g, m);
    if g.links[m].parent.ChildSlot? {
      var p, bit := g.links[m].parent.node, g.links[m].parent.bit;
      assert NodeOk(g, p);
      BelowCovers(p, bit, m, key);
      DescentComplete(g, key, width, visited, next, p);
    }
  }

  /** One step of a descent. */
  lemma DescentStep(g: Graph, key: Bits, width: nat, visited: set<TrieEntry>, node: TrieEntry, next: TrieEntry?)
    requires Shape(g) && Descent(g, key, width, visited, node)
    requires node in g.links && |node.bits| == width && node.Covers(key)
    requires next == if node.cidr == |key| then null else g.links[node].Child(key[node.cidr])
    ensures Descent(g, key, width, visited + {node}, next)
    ensures next != null ==> next in g.links && |next.bits| == width && node.cidr < next.cidr <= width
  {
    assert NodeOk(g, node);
    assert node.cidr < |key| ==> DownOk(g, node, key[node.cidr]);
    hide Shape, NodeOk;
    DescentGrows(g, key, width, visited, node, next);
  }

  lemma DescentGrows(g: Graph, key: Bits, width: nat, visited: set<TrieEntry>, node: TrieEntry, next: TrieEntry?)
    requires Descent(g, key, width, visited, node) && node in g.links && |node.bits| == width && node.Covers(key)
    requires next == if node.cidr == |key| then null else g.links[node].Child(key[node.cidr])
    ensures Descent(g, key, width, visited + {node}, next)
  {
  }

  /** `best` is the visited node with the longest prefix among those that have a peer. */
  ghost predicate Best(g: Graph, visited: set<TrieEntry>, best: TrieEntry?)
    requires visited <= g.links.Keys
  {
    if best == null then forall v :: v in visited ==> g.links[v].peer == null
    else && best in visited && g.links[best].peer != null
         && forall v :: v in visited && g.links[v].peer != null ==> v.cidr <= best.cidr
  }

  /** The state of a lookup of `ip` about to look at `node`. */
  ghost predicate Searching(g: Graph, ip: Bits, visited: set<TrieEntry>, node: TrieEntry?, best: TrieEntry?) {
    && Descent(g, ip, |ip|, visited, node)
    && (node != null ==> node in g.links && |node.bits| == |ip| && node.cidr <= |ip| && forall v :: v in visited ==> v.cidr < node.cidr)
    && Best(g, visited, best)
  }

  lemma SearchStep(g: Graph, ip: Bits, visited: set<TrieEntry>, node: TrieEntry, best: TrieEntry?, next: TrieEntry?)
    requires Shape(g) && Searching(g, ip, visited, node, best) && node.Covers(ip)
    requires next == if node.cidr == |ip| then null else g.links[node].Child(ip[node.cidr])
    ensures Searching(g, ip, visited + {node}, next, if g.links[node].peer != null then node else best)
    ensures next != null ==> node.cidr < next.cidr
  {
    DescentStep(g, ip, |ip|, visited, node, next);
    BestStep(g, visited, node, best);
    assert NodeOk(g, node);
    hide Best, Descent;
  }

  lemma BestStep(g: Graph, visited: set<TrieEntry>, node: TrieEntry, best: TrieEntry?)
    requires node in g.links && visited <= g.links.Keys && Best(g, visited, best) && forall v :: v in visited ==> v.cidr < node.cidr
    ensures Best(g, visited + {node}, if g.links[node].peer != null then node else best)
  {
  }

  lemma BestIsLongest(g: Graph, entries: Entries, ip: Bits, visited: set<TrieEntry>, next: TrieEntry?, best: TrieEntry?)
    requires Shape(g) && Stores(g, entries) && Descent(g, ip, |ip|, visited, next)
    requires next != null ==> !next.Covers(ip)
    requires Best(g, visited, best)
    ensures LongestMatch(entries, ip, |ip|) == if best == null then null else g.links[best].peer
  {
    var c: int := if best == null then -1 else best.cidr;
    if best != null {
      assert NodeOk(g, best);
      CoveringKey(best, ip);
    }
    forall j | c < j <= |ip| ensures PrefixOf(ip, j) !in entries {
      if PrefixOf(ip, j) in entries {
        var m :| m in g.links && m.Key() == PrefixOf(ip, j) && g.links[m].peer != null;
        DescentComplete(g, ip, |ip|, visited, next, m);
        assert false;
      }
    }
    LongestMatchIs(entries, ip, |ip|, c);
  }

  // ---------------------------------------------------------------- placing a prefix

  ghost predicate Absent(g: Graph, k: Prefix) {
    forall n :: n in g.links ==> n.Key() != k
  }

  /** What hangs where a prefix of `ip` longer than `parent` would go. */
  ghost function Down(g: Graph, ip: Bits, parent: TrieEntry?): TrieEntry?
    requires parent != null ==> parent in g.links && parent.cidr < |ip|
  {
    if parent == null then g.Root(|ip|) else g.links[parent].Child(ip[parent.cidr])
  }

  /** A search for the node of `ip`/`cidr` that has come down to `node`, below `parent`. */
  ghost predicate Placing(g: Graph, ip: Bits, cidr: nat, visited: set<TrieEntry>, parent: TrieEntry?, node: TrieEntry?)
    requires cidr <= |ip|
  {
    && Descent(g, ip[..cidr], |ip|, visited, node)
    && (parent == null ==> visited == {})
    && (parent != null ==> parent in visited && parent.cidr < cidr && forall v :: v in visited ==> v.cidr <= parent.cidr)
    && node == Down(g, ip, parent)
    && (node != null ==> node in g.links && |node.bits| == |ip| && node.cidr <= |ip|)
  }

  lemma PlacingStep(g: Graph, ip: Bits, cidr: nat, visited: set<TrieEntry>, parent: TrieEntry?, node: TrieEntry)
    requires Shape(g) && cidr <= |ip| && Placing(g, ip, cidr, visited, parent, node)
    requires node.cidr < cidr && node.Covers(ip)
    ensures Placing(g, ip, cidr, visited + {node}, node, Down(g, ip, node))
    ensures Down(g, ip, node) != null ==> node.cidr < Down(g, ip, node).cidr
  {
    assert ip[..cidr][..node.cidr] == ip[..node.cidr];
    DescentStep(g, ip[..cidr], |ip|, visited, node, Down(g, ip, node));
    if parent != null {
      assert NodeOk(g, parent);
    }
  }

  lemma PlacingAbsent(g: Graph, ip: Bits, cidr: nat, visited: set<TrieEntry>, parent: TrieEntry?, node: TrieEntry?, j: nat)
    requires Shape(g) && cidr <= |ip| && Placing(g, ip, cidr, visited, parent, node)
    requires j <= cidr && (parent != null ==> parent.cidr < j) && (node != null ==> !node.Covers(ip[..j]))
    ensures Absent(g, PrefixOf(ip, j))
  {
    DescentShorter(g, ip, cidr, visited, parent, node, j);
    hide Placing, Shape, Descent;
    forall n | n in g.links ensures n.Key() != PrefixOf(ip, j) {
      if n.Key() == PrefixOf(ip, j) {
        assert n.bits[..j] == ip[..j] == ip[..j][..j];
        DescentComplete(g, ip[..j], |ip|, visited, node, n);
      }
    }
  }

  /** A descent is one for every shorter prefix that goes beyond the nodes visited. */
  lemma DescentShorter(g: Graph, ip: Bits, cidr: nat, visited: set<TrieEntry>, parent: TrieEntry?, node: TrieEntry?, j: nat)
    requires Shape(g) && cidr <= |ip| && Placing(g, ip, cidr, visited, parent, node) && j <= cidr && (parent != null ==> parent.cidr < j)
    ensures Descent(g, ip[..j], |ip|, visited, node)
  {
    forall v | v in visited ensures v.Covers(ip[..j]) {
      assert ip[..j][..v.cidr] == ip[..cidr][..v.cidr];
    }
  }

  /** The slot in which a search that has come down to `down` found it. */
  ghost function SlotOf(ip: Bits, parent: TrieEntry?): ParentSlot
    requires parent != null ==> parent.cidr < |ip|
  {
    if parent == null then RootSlot else ChildSlot(parent, ip[parent.cidr])
  }

  /** `parent` is above every node that stands for a longer prefix of `ip`. */
  lemma BelowPrefix(parent: TrieEntry, ip: Bits, n: TrieEntry)
    requires parent.WellFormed() && |parent.bits| == |ip| && parent.Covers(ip)
    requires n.cidr <= |ip| && n.Key() == PrefixOf(ip, n.cidr) && parent.cidr < n.cidr
    ensures Below(parent, ip[parent.cidr], n)
  {
    assert n.bits[..n.cidr][..parent.cidr] == n.bits[..parent.cidr] && ip[..n.cidr][..parent.cidr] == ip[..parent.cidr];
    assert n.bits[parent.cidr] == n.bits[..n.cidr][parent.cidr] == ip[..n.cidr][parent.cidr];
  }

  lemma CoversPrefix(n: TrieEntry, ip: Bits, c: nat)
    requires c <= |ip|
    ensures n.Covers(ip[..c]) <==> n.Covers(ip) && n.cidr <= c
  {
    assert n.cidr <= c ==> ip[..c][..n.cidr] == ip[..n.cidr];
  }

  /** Where a search for `ip`/`cidr` has ended without finding it. */
  ghost predicate Missed(g: Graph, ip: Bits, cidr: nat, visited: set<TrieEntry>, parent: TrieEntry?, down: TrieEntry?) {
    && |ip| in {32, 128} && cidr <= |ip|
    && Placing(g, ip, cidr, visited, parent, down)
    && (down != null ==> down.cidr > cidr || !down.Covers(ip))
  }

  lemma MissedAbsent(g: Graph, ip: Bits, cidr: nat, visited: set<TrieEntry>, parent: TrieEntry?, down: TrieEntry?)
    requires Shape(g) && Missed(g, ip, cidr, visited, parent, down)
    ensures Absent(g, PrefixOf(ip, cidr))
  {
    if down != null {
      CoversPrefix(down, ip, cidr);
    }
    PlacingAbsent(g, ip, cidr, visited, parent, down, cidr);
  }

  lemma MissedSlot(g: Graph, ip: Bits, cidr: nat, visited: set<TrieEntry>, parent: TrieEntry?, down: TrieEntry)
    requires Shape(g) && Missed(g, ip, cidr, visited, parent, down)
    ensures g.links[down].parent == SlotOf(ip, parent)
    ensures parent != null ==> parent.WellFormed() && |parent.bits| == |ip| && parent.Covers(ip) && Below(parent, ip[parent.cidr], down)
  {
    if parent != null {
      assert NodeOk(g, parent) && DownOk(g, parent, ip[parent.cidr]);
      CoversPrefix(parent, ip, cidr);
    } else {
      assert RootOk(g, |ip|);
    }
  }

  /** `down` and `ip` agree on `common` of the first `cidr` bits and no more. */
  ghost predicate AgreeOn(down: TrieEntry, ip: Bits, cidr: nat, common: nat) {
    && common <= cidr <= |ip| == |down.bits|
    && down.bits[..common] == ip[..common] && (common < cidr ==> down.bits[common] != ip[common])
  }

  /** What hangs below `parent` in the direction of `ip` agrees with `ip` on more bits than `parent` has. */
  lemma AgreeBeyond(parent: TrieEntry, down: TrieEntry, ip: Bits, cidr: nat, common: nat)
    requires AgreeOn(down, ip, cidr, common) && parent.cidr < cidr
    requires parent.Covers(ip) && Below(parent, ip[parent.cidr], down)
    ensures parent.cidr < common
  {
    assert down.bits[..parent.cidr + 1] == down.bits[..parent.cidr] + [down.bits[parent.cidr]];
    assert ip[..parent.cidr + 1] == ip[..parent.cidr] + [ip[parent.cidr]];
    AgreeBefore(down.bits, ip, parent.cidr + 1, common);
  }

  lemma MissedDown(g: Graph, ip: Bits, cidr: nat, visited: set<TrieEntry>, parent: TrieEntry?, down: TrieEntry, common: nat)
    requires Shape(g) && Missed(g, ip, cidr, visited, parent, down) && AgreeOn(down, ip, cidr, common)
    ensures parent != null ==> parent.cidr < common
    ensures common < down.cidr && Absent(g, PrefixOf(ip, common))
  {
    MissedSlot(g, ip, cidr, visited, parent, down);
    if parent != null {
      AgreeBeyond(parent, down, ip, cidr, common);
    }
    AgreeShorter(down.bits, ip, common, down.cidr);
    PlacingAbsent(g, ip, cidr, visited, parent, down, common);
  }

  // ---------------------------------------------------------------- mutations, on graphs

  /** `c` written through a parent slot of a trie of the given width. */
  ghost function HangG(g: Graph, slot: ParentSlot, width: nat, c: TrieEntry?): Graph
    requires slot.ChildSlot? ==> slot.node in g.links
  {
    match slot
    case Detached => g
    case RootSlot => if width == 32 then g.(root4 := c) else g.(root6 := c)
    case ChildSlot(p, bit) => g.(links := g.links[p := g.links[p].WithChild(bit, c)])
  }

  ghost function SetParentG(g: Graph, c: TrieEntry, slot: ParentSlot): Graph
    requires c in g.links
  {
    g.(links := g.links[c := g.links[c].(parent := slot)])
  }

  ghost function AdoptG(g: Graph, n: TrieEntry, l: Links): Graph {
    g.(links := g.links[n := l])
  }

  ghost function DisownG(g: Graph, n: TrieEntry): Graph {
    g.(links := g.links - {n})
  }

  /** `slot` holds `node`, and no other slot does. */
  ghost predicate OnlySlot(g: Graph, node: TrieEntry, slot: ParentSlot) {
    && (slot.ChildSlot? ==> slot.node in g.links && slot.node != node)
    && !slot.Detached?
    && (g.root4 == node <==> slot == RootSlot && |node.bits| == 32)
    && (g.root6 == node <==> slot == RootSlot && |node.bits| != 32)
    && (forall n :: n in g.links ==> (g.links[n].child0 == node <==> slot == ChildSlot(n, false)))
    && (forall n :: n in g.links ==> (g.links[n].child1 == node <==> slot == ChildSlot(n, true)))
  }

  ghost predicate OneSlot(g: Graph, node: TrieEntry)
    requires node in g.links
  {
    OnlySlot(g, node, g.links[node].parent)
  }

  /** `g'` is `g` with every pointer to `node` redirected to `c`. */
  ghost predicate Redirected(g: Graph, g': Graph, node: TrieEntry, c: TrieEntry?) {
    && g'.root4 == Redirect(g.root4, node, c) && g'.root6 == Redirect(g.root6, node, c)
    && g'.links.Keys == g.links.Keys
    && (forall n :: n in g.links ==> g'.links[n].child0 == Redirect(g.links[n].child0, node, c))
    && (forall n :: n in g.links ==> g'.links[n].child1 == Redirect(g.links[n].child1, node, c))
    && (forall n :: n in g.links ==> g'.links[n].peer == g.links[n].peer && g'.links[n].parent == g.links[n].parent)
  }

  /** Writing the one slot of `node` redirects every pointer to it. */
  lemma HangRedirects(g: Graph, node: TrieEntry, slot: ParentSlot, c: TrieEntry?)
    requires OnlySlot(g, node, slot)
    ensures Redirected(g, HangG(g, slot, |node.bits|, c), node, c)
  {
    if slot.ChildSlot? {
      if slot.bit { } else { }
    }
  }

  lemma ShapeOneSlot(g: Graph, node: TrieEntry)
    requires Shape(g) && node in g.links
    ensures OneSlot(g, node)
  {
    assert NodeOk(g, node);
    forall n | n in g.links ensures DownOk(g, n, false) && DownOk(g, n, true) {
      assert NodeOk(g, n);
    }
  }

  function Redirect(c: TrieEntry?, from: TrieEntry, to: TrieEntry?): TrieEntry? {
    if c == from then to else c
  }

  /** `node` is taken out and `child` hangs in its slot instead. */
  ghost function BypassG(g: Graph, node: TrieEntry, child: TrieEntry?): Graph
    requires node in g.links && OneSlot(g, node) && (child != null ==> child in g.links)
  {
    var g1 := if child == null then g else SetParentG(g, child, g.links[node].parent);
    DisownG(HangG(g1, g.links[node].parent, |node.bits|, child), node)
  }

  /** Seen from the other nodes, every pointer to `node` now points to `child`. */
  ghost predicate Bypassed(g: Graph, g': Graph, node: TrieEntry, child: TrieEntry?)
    requires node in g.links
  {
    && g'.root4 == Redirect(g.root4, node, child) && g'.root6 == Redirect(g.root6, node, child)
    && g'.links.Keys == g.links.Keys - {node}
    && (forall n :: n in g'.links ==> g'.links[n].peer == g.links[n].peer)
    && (forall n :: n in g'.links ==> g'.links[n].child0 == Redirect(g.links[n].child0, node, child))
    && (forall n :: n in g'.links ==> g'.links[n].child1 == Redirect(g.links[n].child1, node, child))
    && (forall n :: n in g'.links ==> g'.links[n].parent == if n == child then g.links[node].parent else g.links[n].parent)
  }

  lemma RedirectedBypasses(g: Graph, g1: Graph, g2: Graph, node: TrieEntry, child: TrieEntry?)
    requires node in g.links && (child != null ==> child in g.links && child != node)
    requires g1 == (if child == null then g else SetParentG(g, child, g.links[node].parent)) && Redirected(g1, g2, node, child)
    ensures Bypassed(g, DisownG(g2, node), node, child)
  {
  }

  lemma BypassRedirects(g: Graph, node: TrieEntry, child: TrieEntry?)
    requires node in g.links && OneSlot(g, node) && (child != null ==> child in g.links && child != node)
    ensures Bypassed(g, BypassG(g, node, child), node, child)
  {
    var g1 := if child == null then g else SetParentG(g, child, g.links[node].parent);
    assert OnlySlot(g1, node, g.links[node].parent);
    HangRedirects(g1, node, g.links[node].parent, child);
    RedirectedBypasses(g, g1, HangG(g1, g.links[node].parent, |node.bits|, child), node, child);
  }

  ghost predicate OnlyChild(l: Links, bit: bool, child: TrieEntry?) {
    l.Child(bit) == child && l.Child(!bit) == null
  }

  lemma BypassDown(g: Graph, g': Graph, node: TrieEntry, bit: bool, child: TrieEntry?, n: TrieEntry, b: bool)
    requires node in g.links && DownOk(g, node, bit) && OnlyChild(g.links[node], bit, child)
    requires n in g.links && n != node && DownOk(g, n, b) && Bypassed(g, g', node, child)
    ensures DownOk(g', n, b)
  {
    if g.links[n].Child(b) == node && child != null {
      BelowTransitive(n, b, node, bit, child);
    }
  }

  lemma BypassUp(g: Graph, g': Graph, node: TrieEntry, bit: bool, child: TrieEntry?, n: TrieEntry)
    requires node in g.links && DownOk(g, node, bit) && UpOk(g, node) && OnlyChild(g.links[node], bit, child)
    requires n in g.links && n != node && UpOk(g, n) && OneSlot(g, node) && Bypassed(g, g', node, child)
    ensures UpOk(g', n)
  {
  }

  lemma BypassShape(g: Graph, node: TrieEntry, bit: bool, child: TrieEntry?)
    requires Shape(g) && node in g.links && OnlyChild(g.links[node], bit, child)
    ensures OneSlot(g, node) && (child != null ==> child in g.links && child != node)
    ensures Shape(BypassG(g, node, child)) && Bypassed(g, BypassG(g, node, child), node, child)
  {
    ShapeOneSlot(g, node);
    assert NodeOk(g, node) && DownOk(g, node, bit);
    BypassRedirects(g, node, child);
    var g' := BypassG(g, node, child);
    BypassRoots(g, g', node, bit, child);
    assert forall n :: n in g'.links ==> n in g.links && n != node;
    hide BypassG, Bypassed, DownOk, UpOk, OneSlot, OnlyChild, RootOk, UniqueKeys;
    forall n | n in g'.links ensures NodeOk(g', n) {
      assert NodeOk(g, n);
      BypassDown(g, g', node, bit, child, n, false);
      BypassDown(g, g', node, bit, child, n, true);
      BypassUp(g, g', node, bit, child, n);
    }
  }

  lemma BypassRoots(g: Graph, g': Graph, node: TrieEntry, bit: bool, child: TrieEntry?)
    requires Shape(g) && node in g.links && OnlyChild(g.links[node], bit, child) && Bypassed(g, g', node, child)
    ensures RootOk(g', 32) && RootOk(g', 128) && UniqueKeys(g')
  {
    assert NodeOk(g, node) && DownOk(g, node, bit);
    hide NodeOk;
  }

  /** `top` takes the place of `down`, which now hangs below it. */
  ghost function AboveG(g: Graph, top: TrieEntry, peer: Peer?, bit: bool, down: TrieEntry): Graph
    requires down in g.links && OneSlot(g, down)
  {
    var slot := g.links[down].parent;
    AdoptG(HangG(SetParentG(g, down, ChildSlot(top, bit)), slot, |down.bits|, top), top, Links(peer, null, null, slot).WithChild(bit, down))
  }

  /** Seen from the old nodes, every pointer to `down` now points to `top`. */
  ghost predicate Raised(g: Graph, g': Graph, top: TrieEntry, peer: Peer?, bit: bool, down: TrieEntry)
    requires down in g.links
  {
    && g'.root4 == Redirect(g.root4, down, top) && g'.root6 == Redirect(g.root6, down, top)
    && g'.links.Keys == g.links.Keys + {top}
    && g'.links[top] == Links(peer, null, null, g.links[down].parent).WithChild(bit, down)
    && (forall n :: n in g.links ==> g'.links[n].peer == g.links[n].peer)
    && (forall n :: n in g.links ==> g'.links[n].child0 == Redirect(g.links[n].child0, down, top))
    && (forall n :: n in g.links ==> g'.links[n].child1 == Redirect(g.links[n].child1, down, top))
    && (forall n :: n in g.links ==> g'.links[n].parent == if n == down then ChildSlot(top, bit) else g.links[n].parent)
  }

  lemma RedirectedRaises(g: Graph, g1: Graph, g2: Graph, top: TrieEntry, peer: Peer?, bit: bool, down: TrieEntry)
    requires down in g.links && top !in g.links
    requires g1 == SetParentG(g, down, ChildSlot(top, bit)) && Redirected(g1, g2, down, top)
    ensures Raised(g, AdoptG(g2, top, Links(peer, null, null, g.links[down].parent).WithChild(bit, down)), top, peer, bit, down)
  {
  }

  lemma AboveRedirects(g: Graph, top: TrieEntry, peer: Peer?, bit: bool, down: TrieEntry)
    requires down in g.links && OneSlot(g, down) && top !in g.links
    ensures Raised(g, AboveG(g, top, peer, bit, down), top, peer, bit, down)
  {
    var g1 := SetParentG(g, down, ChildSlot(top, bit));
    assert OnlySlot(g1, down, g.links[down].parent);
    HangRedirects(g1, down, g.links[down].parent, top);
    RedirectedRaises(g, g1, HangG(g1, g.links[down].parent, |down.bits|, top), top, peer, bit, down);
  }

  /** `top` fits between `down` and the slot that holds it. */
  ghost predicate FitsAbove(g: Graph, top: TrieEntry, bit: bool, down: TrieEntry)
    requires down in g.links
  {
    && top !in g.links && top.WellFormed()
    && Absent(g, top.Key())
    && Below(top, bit, down)
    && (g.links[down].parent.ChildSlot? ==> Below(g.links[down].parent.node, g.links[down].parent.bit, top))
  }

  lemma AboveDown(g: Graph, g': Graph, top: TrieEntry, peer: Peer?, bit: bool, down: TrieEntry, n: TrieEntry, b: bool)
    requires down in g.links && FitsAbove(g, top, bit, down) && Raised(g, g', top, peer, bit, down)
    requires n in g.links && DownOk(g, n, b)
    ensures DownOk(g', n, b)
  {
    assert g'.links[n].Child(b) == Redirect(g.links[n].Child(b), down, top);
  }

  lemma AboveUp(g: Graph, g': Graph, top: TrieEntry, peer: Peer?, bit: bool, down: TrieEntry, n: TrieEntry)
    requires down in g.links && FitsAbove(g, top, bit, down) && Raised(g, g', top, peer, bit, down)
    requires n in g.links && UpOk(g, n)
    ensures UpOk(g', n)
  {
  }

  lemma AboveTop(g: Graph, g': Graph, top: TrieEntry, peer: Peer?, bit: bool, down: TrieEntry)
    requires down in g.links && FitsAbove(g, top, bit, down) && Raised(g, g', top, peer, bit, down) && UpOk(g, down)
    ensures NodeOk(g', top)
  {
  }

  lemma AboveShape(g: Graph, top: TrieEntry, peer: Peer?, bit: bool, down: TrieEntry)
    requires Shape(g) && down in g.links && FitsAbove(g, top, bit, down)
    ensures OneSlot(g, down)
    ensures Shape(AboveG(g, top, peer, bit, down)) && Raised(g, AboveG(g, top, peer, bit, down), top, peer, bit, down)
  {
    ShapeOneSlot(g, down);
    AboveRedirects(g, top, peer, bit, down);
    var g' := AboveG(g, top, peer, bit, down);
    AboveRoots(g, g', top, peer, bit, down);
    assert forall n :: n in g'.links ==> n in g.links || n == top;
    hide AboveG, Raised, FitsAbove, DownOk, UpOk, OneSlot, RootOk, UniqueKeys;
    forall n | n in g.links ensures n in g'.links && NodeOk(g', n) {
      assert NodeOk(g, n);
      AboveDown(g, g', top, peer, bit, down, n, false);
      AboveDown(g, g', top, peer, bit, down, n, true);
      AboveUp(g, g', top, peer, bit, down, n);
    }
  }

  lemma AboveRoots(g: Graph, g': Graph, top: TrieEntry, peer: Peer?, bit: bool, down: TrieEntry)
    requires Shape(g) && down in g.links && FitsAbove(g, top, bit, down) && Raised(g, g', top, peer, bit, down)
    ensures RootOk(g', 32) && RootOk(g', 128) && UniqueKeys(g') && NodeOk(g', top) && g.links.Keys <= g'.links.Keys
  {
    assert NodeOk(g, down);
    hide NodeOk;
    AboveTop(g, g', top, peer, bit, down);
    AboveKeys(g, g', top, peer, bit, down);
    hide UniqueKeys, Absent;
  }

  lemma AboveKeys(g: Graph, g': Graph, top: TrieEntry, peer: Peer?, bit: bool, down: TrieEntry)
    requires UniqueKeys(g) && down in g.links && FitsAbove(g, top, bit, down) && Raised(g, g', top, peer, bit, down)
    ensures UniqueKeys(g')
  {
    assert forall n :: n in g'.links ==> n == top || n in g.links;
    hide Raised, Below;
  }

  /** The new node `n` hung in an empty slot. */
  ghost function LeafG(g: Graph, n: TrieEntry, peer: Peer?, slot: ParentSlot): Graph
    requires slot.ChildSlot? ==> slot.node in g.links
  {
    AdoptG(HangG(g, slot, |n.bits|, n), n, Links(peer, null, null, slot))
  }

  /** `slot` is empty and `n` fits there. */
  ghost predicate FitsEmpty(g: Graph, n: TrieEntry, slot: ParentSlot) {
    && n !in g.links && n.WellFormed() && Absent(g, n.Key())
    && match slot
       case Detached => false
       case RootSlot => g.Root(|n.bits|) == null
       case ChildSlot(p, bit) => p in g.links && g.links[p].Child(bit) == null && Below(p, bit, n)
  }

  /** `g'` is `g` with the leaf `n` in `slot`, which was empty. */
  ghost predicate Grown(g: Graph, g': Graph, n: TrieEntry, peer: Peer?, slot: ParentSlot) {
    && (g'.root4 == if slot == RootSlot && |n.bits| == 32 then n else g.root4)
    && (g'.root6 == if slot == RootSlot && |n.bits| != 32 then n else g.root6)
    && g'.links.Keys == g.links.Keys + {n}
    && g'.links[n] == Links(peer, null, null, slot)
    && (forall m :: m in g.links ==> g'.links[m].child0 == if slot == ChildSlot(m, false) then n else g.links[m].child0)
    && (forall m :: m in g.links ==> g'.links[m].child1 == if slot == ChildSlot(m, true) then n else g.links[m].child1)
    && (forall m :: m in g.links ==> g'.links[m].peer == g.links[m].peer && g'.links[m].parent == g.links[m].parent)
  }

  lemma LeafGrows(g: Graph, n: TrieEntry, peer: Peer?, slot: ParentSlot)
    requires FitsEmpty(g, n, slot)
    ensures Grown(g, LeafG(g, n, peer, slot), n, peer, slot)
  {
    if slot.ChildSlot? {
      if slot.bit { } else { }
    }
  }

  lemma LeafDown(g: Graph, g': Graph, n: TrieEntry, peer: Peer?, slot: ParentSlot, m: TrieEntry, b: bool)
    requires FitsEmpty(g, n, slot) && Grown(g, g', n, peer, slot) && m in g.links && DownOk(g, m, b)
    ensures DownOk(g', m, b)
  {
  }

  lemma LeafUp(g: Graph, g': Graph, n: TrieEntry, peer: Peer?, slot: ParentSlot, m: TrieEntry)
    requires FitsEmpty(g, n, slot) && Grown(g, g', n, peer, slot) && m in g.links && m.WellFormed() && UpOk(g, m)
    ensures UpOk(g', m)
  {
  }

  lemma LeafShape(g: Graph, n: TrieEntry, peer: Peer?, slot: ParentSlot)
    requires Shape(g) && FitsEmpty(g, n, slot)
    ensures Shape(LeafG(g, n, peer, slot)) && Grown(g, LeafG(g, n, peer, slot), n, peer, slot)
  {
    LeafGrows(g, n, peer, slot);
    GrownShape(g, LeafG(g, n, peer, slot), n, peer, slot);
  }

  lemma GrownShape(g: Graph, g': Graph, n: TrieEntry, peer: Peer?, slot: ParentSlot)
    requires Shape(g) && FitsEmpty(g, n, slot) && Grown(g, g', n, peer, slot)
    ensures Shape(g')
  {
    GrownRest(g, g', n, peer, slot);
    assert forall m :: m in g'.links ==> m == n || m in g.links;
    hide FitsEmpty, Grown, DownOk, UpOk, UniqueKeys, RootOk;
    forall m | m in g'.links ensures NodeOk(g', m) {
      if m != n {
        assert NodeOk(g, m);
        LeafDown(g, g', n, peer, slot, m, false);
        LeafDown(g, g', n, peer, slot, m, true);
        LeafUp(g, g', n, peer, slot, m);
      }
    }
  }

  /** The leaf itself, the roots and the keys. */
  lemma GrownRest(g: Graph, g': Graph, n: TrieEntry, peer: Peer?, slot: ParentSlot)
    requires Shape(g) && FitsEmpty(g, n, slot) && Grown(g, g', n, peer, slot)
    ensures NodeOk(g', n) && RootOk(g', 32) && RootOk(g', 128) && UniqueKeys(g')
  {
    hide NodeOk;
    assert NodeOk(g', n) by { GrownLeaf(g, g', n, peer, slot); }
  }

  lemma GrownLeaf(g: Graph, g': Graph, n: TrieEntry, peer: Peer?, slot: ParentSlot)
    requires FitsEmpty(g, n, slot) && Grown(g, g', n, peer, slot)
    ensures NodeOk(g', n)
  {
  }

  lemma FitsAboveAt(g: Graph, ip: Bits, cidr: nat, visited: set<TrieEntry>, parent: TrieEntry?, down: TrieEntry, common: nat, n: TrieEntry)
    requires Shape(g) && Missed(g, ip, cidr, visited, parent, down) && AgreeOn(down, ip, cidr, common)
    requires n !in g.links && n.Key() == PrefixOf(ip, common)
    ensures common < down.cidr <= |down.bits| && FitsAbove(g, n, down.bits[common], down)
  {
    MissedSlot(g, ip, cidr, visited, parent, down);
    MissedDown(g, ip, cidr, visited, parent, down, common);
    if parent != null {
      BelowPrefix(parent, ip, n);
    }
  }

  /** Masking the address first makes no difference to where it parts from `down` within the mask. */
  lemma AgreeMasked(down: TrieEntry, ip: Bits, masked: Bits, cidr: nat, common: nat)
    requires cidr <= |ip| == |down.bits| && masked == Mask(ip, cidr)
    requires common == if CommonBits(down.bits, masked) > cidr then cidr else CommonBits(down.bits, masked)
    ensures AgreeOn(down, ip, cidr, common)
    ensures forall k :: 0 <= k < cidr ==> masked[k] == ip[k]
  {
    forall k | 0 <= k < cidr ensures masked[k] == ip[k] {
      AgreeBefore(masked, ip, cidr, k);
    }
    AgreeShorter(masked, ip, cidr, common);
    AgreeShorter(down.bits, masked, CommonBits(down.bits, masked), common);
  }

  lemma GlueKey(glue: TrieEntry, ip: Bits, masked: Bits, cidr: nat, common: nat)
    requires common <= cidr <= |ip| && masked == Mask(ip, cidr) && glue.cidr == common && glue.bits == Mask(masked, common)
    ensures glue.Key() == PrefixOf(ip, common)
  {
    AgreeShorter(masked, ip, cidr, common);
    MaskOfCovered(glue.bits, ip, common);
  }

  lemma FitsBelowGlue(glue: TrieEntry, n: TrieEntry, ip: Bits, cidr: nat, down: TrieEntry, common: nat)
    requires AgreeOn(down, ip, cidr, common) && common < cidr && |ip| in {32, 128}
    requires glue.Key() == PrefixOf(ip, common) && n.Key() == PrefixOf(ip, cidr)
    ensures Below(glue, !down.bits[common], n)
  {
    AgreeShorter(n.bits, ip, cidr, common);
    AgreeBefore(n.bits, ip, cidr, common);
  }

  /** The trie stays free of idle nodes when a leaf with a peer fills a slot of the one node that might be idle. */
  lemma GrownTrie(g: Graph, g': Graph, n: TrieEntry, peer: Peer, slot: ParentSlot)
    requires Grown(g, g', n, peer, slot) && Shape(g')
    requires forall m :: m in g.links ==> GlueOk(g.links[m]) || (slot.ChildSlot? && slot.node == m && g.links[m].Child(!slot.bit) != null)
    ensures Trie(g')
  {
    hide Shape, GlueOk;
    forall m | m in g'.links ensures GlueOk(g'.links[m]) {
      GrownGlue(g, g', n, peer, slot, m);
    }
  }

  lemma GrownGlue(g: Graph, g': Graph, n: TrieEntry, peer: Peer, slot: ParentSlot, m: TrieEntry)
    requires Grown(g, g', n, peer, slot) && m in g'.links
    requires m in g.links ==> GlueOk(g.links[m]) || (slot.ChildSlot? && slot.node == m && g.links[m].Child(!slot.bit) != null)
    ensures GlueOk(g'.links[m])
  {
    assert m == n || m in g.links;
  }

  lemma RaisedTrie(g: Graph, g': Graph, top: TrieEntry, peer: Peer?, bit: bool, down: TrieEntry)
    requires down in g.links && Raised(g, g', top, peer, bit, down) && Trie(g)
    ensures forall m :: m in g'.links ==> GlueOk(g'.links[m]) || (m == top && peer == null && g'.links[top].Child(bit) == down)
  {
  }

  // ---------------------------------------------------------------- peers, entries and lists

  /** `g` and `g'` have the same nodes, with the same peers, except perhaps for `n`. */
  ghost predicate SamePeersBut(g: Graph, g': Graph, n: TrieEntry) {
    && (forall m :: m in g.links && m != n ==> m in g'.links && g'.links[m].peer == g.links[m].peer)
    && (forall m :: m in g'.links && m != n ==> m in g.links)
  }

  ghost function PeerIn(g: Graph, n: TrieEntry): Peer? {
    if n in g.links then g.links[n].peer else null
  }

  lemma StoresSet(g: Graph, g': Graph, entries: Entries, n: TrieEntry, peer: Peer)
    requires Stores(g, entries) && SamePeersBut(g, g', n) && PeerIn(g', n) == peer && UniqueKeys(g')
    ensures Stores(g', entries[n.Key() := peer])
  {
    var entries' := entries[n.Key() := peer];
    forall k | k in entries' ensures exists m :: m in g'.links && m.Key() == k && g'.links[m].peer != null {
      if k == n.Key() {
        assert n in g'.links;
      } else {
        var m :| m in g.links && m.Key() == k && g.links[m].peer != null;
        assert m in g'.links;
      }
    }
  }

  lemma StoresUnset(g: Graph, g': Graph, entries: Entries, n: TrieEntry)
    requires Stores(g, entries) && SamePeersBut(g, g', n) && PeerIn(g', n) == null && UniqueKeys(g) && n in g.links
    ensures Stores(g', entries - {n.Key()})
  {
    forall k | k in entries - {n.Key()} ensures exists m :: m in g'.links && m.Key() == k && g'.links[m].peer != null {
      var m :| m in g.links && m.Key() == k && g.links[m].peer != null;
      assert m in g'.links;
    }
  }

  /** A node without a peer may come and go. */
  lemma StoresKeep(g: Graph, g': Graph, entries: Entries, n: TrieEntry)
    requires Stores(g, entries) && SamePeersBut(g, g', n) && PeerIn(g, n) == null && PeerIn(g', n) == null
    ensures Stores(g', entries)
  {
    forall k | k in entries ensures exists m :: m in g'.links && m.Key() == k && g'.links[m].peer != null {
      var m :| m in g.links && m.Key() == k && g.links[m].peer != null;
      assert m in g'.links;
    }
  }

  /** `s` without its first `x`. */
  function Without(s: seq<TrieEntry>, x: TrieEntry): (r: seq<TrieEntry>)
    ensures forall y :: y in r ==> y in s
    ensures forall y :: y in s && y != x ==> y in r
    ensures NoDuplicates(s) ==> NoDuplicates(r) && x !in r
  {
    if s == [] then []
    else if s[0] == x then s[1..]
    else
      var t := Without(s[1..], x);
      assert NoDuplicates(s) ==> s[0] !in t;
      [s[0]] + t
  }

  lemma ListsPush(g: Graph, g': Graph, lists: Lists, n: TrieEntry, peer: Peer)
    requires ListsOk(g, lists) && SamePeersBut(g, g', n) && PeerIn(g, n) == null && PeerIn(g', n) == peer && peer in lists
    ensures ListsOk(g', lists[peer := lists[peer] + [n]])
  {
  }

  lemma ListsRemove(g: Graph, g': Graph, lists: Lists, n: TrieEntry, peer: Peer)
    requires ListsOk(g, lists) && SamePeersBut(g, g', n) && PeerIn(g, n) == peer && PeerIn(g', n) == null && peer in lists
    ensures ListsOk(g', lists[peer := Without(lists[peer], n)])
  {
  }

  lemma ListsKeep(g: Graph, g': Graph, lists: Lists, n: TrieEntry)
    requires ListsOk(g, lists) && SamePeersBut(g, g', n) && PeerIn(g, n) == null && PeerIn(g', n) == null
    ensures ListsOk(g', lists)
  {
  }

  lemma GraftedLeaf(g: Graph, lists: Lists, entries: Entries, n: TrieEntry, peer: Peer, slot: ParentSlot)
    requires Shape(g) && ListsOk(g, lists) && Stores(g, entries) && FitsEmpty(g, n, slot) && peer in lists
    ensures n !in g.links && (slot.ChildSlot? ==> slot.node in g.links)
    ensures var g' := LeafG(g, n, peer, slot);
      && Shape(g') && Grown(g, g', n, peer, slot) && g'.links.Keys == g.links.Keys + {n}
      && ListsOk(g', lists[peer := lists[peer] + [n]]) && Stores(g', entries[n.Key() := peer])
  {
    hide Shape, ListsOk, Stores, LeafG;
    LeafShape(g, n, peer, slot);
    var g' := LeafG(g, n, peer, slot);
    assert SamePeersBut(g, g', n) && PeerIn(g', n) == peer;
    ShapeUnique(g');
    StoresSet(g, g', entries, n, peer);
    ListsPush(g, g', lists, n, peer);
  }

  lemma RaisedPeers(g: Graph, g': Graph, top: TrieEntry, peer: Peer?, bit: bool, down: TrieEntry)
    requires down in g.links && top !in g.links && Raised(g, g', top, peer, bit, down)
    ensures SamePeersBut(g, g', top) && PeerIn(g, top) == null && PeerIn(g', top) == peer
    ensures g'.links.Keys == g.links.Keys + {top}
  {
  }

  lemma GraftedGlue(g: Graph, lists: Lists, entries: Entries, top: TrieEntry, bit: bool, down: TrieEntry)
    requires Trie(g) && ListsOk(g, lists) && Stores(g, entries) && down in g.links && FitsAbove(g, top, bit, down)
    ensures top !in g.links && OneSlot(g, down) && |top.bits| == |down.bits|
    ensures var g' := AboveG(g, top, null, bit, down);
      && Shape(g') && Raised(g, g', top, null, bit, down) && ListsOk(g', lists) && Stores(g', entries)
      && forall m :: m in g'.links ==> GlueOk(g'.links[m]) || (m == top && g'.links[top].Child(bit) == down)
  {
    hide Shape, ListsOk, Stores, AboveG, OneSlot, Raised, SamePeersBut, PeerIn;
    AboveShape(g, top, null, bit, down);
    var g' := AboveG(g, top, null, bit, down);
    RaisedPeers(g, g', top, null, bit, down);
    RaisedTrie(g, g', top, null, bit, down);
    StoresKeep(g, g', entries, top);
    ListsKeep(g, g', lists, top);
  }

  lemma GraftedAbove(g: Graph, lists: Lists, entries: Entries, top: TrieEntry, peer: Peer, bit: bool, down: TrieEntry)
    requires Trie(g) && ListsOk(g, lists) && Stores(g, entries) && down in g.links && FitsAbove(g, top, bit, down) && peer in lists
    ensures top !in g.links && OneSlot(g, down) && |top.bits| == |down.bits|
    ensures var g' := AboveG(g, top, peer, bit, down);
      && Trie(g') && g'.links.Keys == g.links.Keys + {top}
      && ListsOk(g', lists[peer := lists[peer] + [top]]) && Stores(g', entries[top.Key() := peer])
  {
    hide Shape, ListsOk, Stores, AboveG, OneSlot, Raised, SamePeersBut, PeerIn;
    AboveShape(g, top, peer, bit, down);
    var g' := AboveG(g, top, peer, bit, down);
    RaisedPeers(g, g', top, peer, bit, down);
    RaisedTrie(g, g', top, peer, bit, down);
    ShapeUnique(g');
    StoresSet(g, g', entries, top, peer);
    ListsPush(g, g', lists, top, peer);
  }

  ghost function SetPeerG(g: Graph, n: TrieEntry, peer: Peer?): Graph
    requires n in g.links
  {
    g.(links := g.links[n := g.links[n].(peer := peer)])
  }

  lemma SetPeerNode(g: Graph, n: TrieEntry, peer: Peer?, m: TrieEntry)
    requires n in g.links && m in g.links && NodeOk(g, m)
    ensures NodeOk(SetPeerG(g, n, peer), m)
  {
  }

  lemma SetPeerShape(g: Graph, n: TrieEntry, peer: Peer?)
    requires n in g.links && Shape(g)
    ensures Shape(SetPeerG(g, n, peer)) && SamePeersBut(g, SetPeerG(g, n, peer), n) && PeerIn(SetPeerG(g, n, peer), n) == peer
  {
    hide NodeOk;
    var g' := SetPeerG(g, n, peer);
    forall m | m in g.links ensures NodeOk(g', m) {
      SetPeerNode(g, n, peer, m);
    }
  }

  lemma SetPeerTrie(g: Graph, n: TrieEntry, peer: Peer)
    requires n in g.links && Trie(g)
    ensures Trie(SetPeerG(g, n, peer))
  {
    SetPeerShape(g, n, peer);
    hide Shape;
  }

  /** `lists` once `n` is off the list of its peer, if it has one. */
  ghost function Unlisted(g: Graph, lists: Lists, n: TrieEntry): Lists
    requires n in g.links && (g.links[n].peer != null ==> g.links[n].peer in lists)
  {
    var p := g.links[n].peer;
    if p == null then lists else lists[p := Without(lists[p], n)]
  }

  /** Taking a node from its peer. */
  lemma Disowned(g: Graph, lists: Lists, entries: Entries, n: TrieEntry)
    requires Trie(g) && ListsOk(g, lists) && Stores(g, entries) && n in g.links
    ensures g.links[n].peer != null ==> g.links[n].peer in lists
    ensures var g' := SetPeerG(g, n, null); Shape(g') && ListsOk(g', Unlisted(g, lists, n)) && Stores(g', entries - {n.Key()})
  {
    hide Shape, Stores, SetPeerG;
    SetPeerShape(g, n, null);
    ShapeUnique(g);
    var g' := SetPeerG(g, n, null);
    StoresUnset(g, g', entries, n);
    if g.links[n].peer != null {
      ListsRemove(g, g', lists, n, g.links[n].peer);
    } else {
      ListsKeep(g, g', lists, n);
    }
  }

  /** Giving a node to a peer, whoever had it before. */
  lemma Overwritten(g: Graph, lists: Lists, entries: Entries, n: TrieEntry, peer: Peer)
    requires Trie(g) && ListsOk(g, lists) && Stores(g, entries) && n in g.links && peer in lists
    ensures g.links[n].peer != null ==> g.links[n].peer in lists
    ensures var g', l := SetPeerG(g, n, peer), Unlisted(g, lists, n);
      Trie(g') && ListsOk(g', l[peer := l[peer] + [n]]) && Stores(g', entries[n.Key() := peer])
  {
    hide Trie, Shape, Stores, ListsOk;
    Disowned(g, lists, entries, n);
    SetPeerTrie(g, n, peer);
    var g1, g' := SetPeerG(g, n, null), SetPeerG(g, n, peer);
    TrieShape(g');
    StoresSet(g, g', entries, n, peer);
    ListsPush(g1, g', Unlisted(g, lists, n), n, peer);
  }

  /** All nodes but `n` earn their place. */
  ghost predicate GlueOkBut(g: Graph, n: TrieEntry?) {
    forall m :: m in g.links && m != n ==> GlueOk(g.links[m])
  }

  lemma BypassedGlue(g: Graph, g': Graph, node: TrieEntry, child: TrieEntry?, p: TrieEntry?)
    requires node in g.links && Bypassed(g, g', node, child) && GlueOkBut(g, node)
    requires child == null ==> OneSlot(g, node) && var slot := g.links[node].parent; if slot.ChildSlot? then p == slot.node else p == null
    ensures GlueOkBut(g', if child == null then p else null)
  {
  }

  lemma Bypassing(g: Graph, lists: Lists, entries: Entries, node: TrieEntry, bit: bool, child: TrieEntry?)
    requires Shape(g) && ListsOk(g, lists) && Stores(g, entries) && GlueOkBut(g, node)
    requires node in g.links && g.links[node].peer == null && OnlyChild(g.links[node], bit, child)
    ensures OneSlot(g, node) && (child != null ==> child in g.links && child != node)
    ensures var g' := BypassG(g, node, child);
      && Shape(g') && ListsOk(g', lists) && Stores(g', entries) && Bypassed(g, g', node, child)
      && (child != null || g.links[node].parent == RootSlot ==> Trie(g'))
      && (child == null && g.links[node].parent.ChildSlot? ==> GlueOkBut(g', g.links[node].parent.node))
  {
    hide Shape, ListsOk, Stores, BypassG, SamePeersBut, PeerIn;
    BypassShape(g, node, bit, child);
    var g' := BypassG(g, node, child);
    BypassedPeers(g, g', node, child);
    StoresKeep(g, g', entries, node);
    ListsKeep(g, g', lists, node);
    var slot := g.links[node].parent;
    BypassedGlue(g, g', node, child, if slot.ChildSlot? then slot.node else null);
  }

  lemma BypassedPeers(g: Graph, g': Graph, node: TrieEntry, child: TrieEntry?)
    requires node in g.links && Bypassed(g, g', node, child)
    ensures SamePeersBut(g, g', node) && PeerIn(g, node) == g.links[node].peer && PeerIn(g', node) == null
  {
  }

  lemma PrunedKeys(g: Graph, g': Graph, node: TrieEntry, child: TrieEntry?)
    requires node in g.links && Bypassed(g, g', node, child)
    ensures g'.links.Keys == g.links.Keys - {node}
  {
  }

  lemma PrunedParent(g: Graph, node: TrieEntry, bit: bool, child: TrieEntry?)
    requires Shape(g) && node in g.links
    ensures !g.links[node].parent.Detached?
    ensures g.links[node].parent.ChildSlot? ==> g.links[node].parent.node in g.links && g.links[node].parent.node != node
  {
    ShapeOneSlot(g, node);
  }

  /** Once a leaf is gone, its parent has a peer or just its other child. */
  lemma PrunedSibling(g: Graph, g': Graph, node: TrieEntry, bit: bool, slot: ParentSlot)
    requires Shape(g) && GlueOkBut(g, node) && node in g.links && Bypassed(g, g', node, null)
    requires slot == g.links[node].parent && slot.ChildSlot? && slot.node in g'.links
    ensures g'.links[slot.node].Child(slot.bit) == null
    ensures g'.links[slot.node].peer == null ==> g'.links[slot.node].Child(!slot.bit) != null
    ensures GlueOkBut(g', slot.node) && g'.links[slot.node].peer != null ==> Trie(g') || !Shape(g')
  {
    ShapeOneSlot(g, node);
    hide Shape;
  }

  lemma MissedBits(g: Graph, ip: Bits, cidr: nat, visited: set<TrieEntry>, parent: TrieEntry?, down: TrieEntry)
    requires Missed(g, ip, cidr, visited, parent, down)
    ensures down in g.links && |down.bits| == |ip|
  {
  }

  lemma EmptyMissed(g: Graph, ip: Bits, cidr: nat)
    requires |ip| in {32, 128} && cidr <= |ip| && g.Root(|ip|) == null
    ensures Missed(g, ip, cidr, {}, null, null)
  {
  }

  /** A new node fits in the empty slot where a search for it ended. */
  lemma FitsMissed(g: Graph, ip: Bits, cidr: nat, visited: set<TrieEntry>, parent: TrieEntry?, n: TrieEntry)
    requires Shape(g) && Missed(g, ip, cidr, visited, parent, null)
    requires n !in g.links && n.Key() == PrefixOf(ip, cidr)
    ensures FitsEmpty(g, n, SlotOf(ip, parent))
  {
    MissedAbsent(g, ip, cidr, visited, parent, null);
    if parent != null {
      assert NodeOk(g, parent);
      CoversPrefix(parent, ip, cidr);
      BelowPrefix(parent, ip, n);
    }
  }

  /** A new node fits beside `down` below the branching node of their common prefix. */
  lemma FitsBesideGlue(g: Graph, g': Graph, ip: Bits, cidr: nat, visited: set<TrieEntry>, parent: TrieEntry?,
                       down: TrieEntry, common: nat, glue: TrieEntry, n: TrieEntry)
    requires Shape(g) && Missed(g, ip, cidr, visited, parent, down) && AgreeOn(down, ip, cidr, common) && common < cidr
    requires glue.Key() == PrefixOf(ip, common) && n.Key() == PrefixOf(ip, cidr) && n !in g.links && glue != n
    requires Raised(g, g', glue, null, down.bits[common], down)
    ensures FitsEmpty(g', n, ChildSlot(glue, !down.bits[common]))
  {
    MissedAbsent(g, ip, cidr, visited, parent, down);
    FitsBelowGlue(glue, n, ip, cidr, down, common);
  }

  ghost function OwnedBy(entries: Entries, peer: Peer): set<Prefix> {
    set k | k in entries && entries[k] == peer
  }

  lemma StoresAt(g: Graph, entries: Entries, n: TrieEntry)
    requires Shape(g) && Stores(g, entries) && n in g.links
    ensures if g.links[n].peer != null then n.Key() in entries && entries[n.Key()] == g.links[n].peer else n.Key() !in entries
  {
  }

  lemma AbsentUnstored(g: Graph, entries: Entries, k: Prefix)
    requires Stores(g, entries) && Absent(g, k)
    ensures k !in entries
  {
  }

  lemma ListedNode(g: Graph, lists: Lists, entries: Entries, peer: Peer, n: TrieEntry)
    requires ListsOk(g, lists) && Stores(g, entries) && peer in lists && n in lists[peer]
    ensures n in g.links && g.links[n].peer == peer && n.Key() in entries && entries[n.Key()] == peer
  {
  }

  lemma UnknownOwnsNothing(g: Graph, lists: Lists, entries: Entries, peer: Peer)
    requires ListsOk(g, lists) && Stores(g, entries)
    ensures peer !in lists ==> OwnedBy(entries, peer) == {}
  {
    forall k | k in entries ensures entries[k] in lists {
      var n :| n in g.links && n.Key() == k && g.links[n].peer != null;
    }
  }

  /** The keys on a peer's list are its prefixes, each once. */
  lemma ListedKeys(g: Graph, lists: Lists, entries: Entries, peer: Peer, r: seq<Prefix>)
    requires Trie(g) && ListsOk(g, lists) && Stores(g, entries) && peer in lists
    requires |r| == |lists[peer]| && forall j :: 0 <= j < |r| ==> r[j] == lists[peer][j].Key()
    ensures forall i, j :: 0 <= i < j < |r| ==> r[i] != r[j]
    ensures forall k :: k in r <==> k in OwnedBy(entries, peer)
  {
    var s := lists[peer];
    assert forall i :: 0 <= i < |s| ==> s[i] in s;
    forall k | k in OwnedBy(entries, peer) ensures k in r {
      var n :| n in g.links && n.Key() == k && g.links[n].peer != null;
      var i :| 0 <= i < |s| && s[i] == n;
      assert r[i] == k;
    }
  }

  /** A peer whose list is empty has no entry. */
  lemma UnlistedOwnsNothing(g: Graph, lists: Lists, entries: Entries, peer: Peer)
    requires ListsOk(g, lists) && Stores(g, entries) && peer in lists && lists[peer] == []
    ensures OwnedBy(entries, peer) == {}
  {
    forall k | k in entries ensures entries[k] != peer {
      var n :| n in g.links && n.Key() == k && g.links[n].peer != null;
    }
  }

  /** Below every node there is an entry, so a table without entries has no nodes at all. */
  lemma {:induction false} NodeHasEntry(g: Graph, entries: Entries, n: TrieEntry)
    requires Trie(g) && Stores(g, entries) && n in g.links
    ensures entries != map[]
    decreases 128 - n.cidr
  {
    if g.links[n].peer == null {
      assert NodeOk(g, n) && GlueOk(g.links[n]);
      var c := g.links[n].child0;
      assert NodeOk(g, c);
      NodeHasEntry(g, entries, c);
    }
  }

  lemma NoEntriesNoNodes(g: Graph)
    requires Trie(g) && Stores(g, map[])
    ensures g == Graph(null, null, map[])
  {
    if n :| n in g.links {
      NodeHasEntry(g, map[], n);
    }
    assert RootOk(g, 32) && RootOk(g, 128);
  }

  // ---------------------------------------------------------------- the reference for whole runs

  datatype Op =
    | InsertOp(ip: Bits, cidr: nat, peer: Peer)
    | RemoveOp(ip: Bits, cidr: nat, peer: Peer)
    | RemoveByPeerOp(peer: Peer)
  {
    predicate Ok() {
      !RemoveByPeerOp? ==> |ip| in {32, 128} && cidr <= |ip|
    }
  }

  ghost function Apply(entries: Entries, op: Op): Entries
    requires op.Ok()
  {
    match op
    case InsertOp(ip, cidr, peer) => entries[PrefixOf(ip, cidr) := peer]
    case RemoveOp(ip, cidr, peer) =>
      var k := PrefixOf(ip, cidr);
      if k in entries && entries[k] == peer then entries - {k} else entries
    case RemoveByPeerOp(peer) => entries - OwnedBy(entries, peer)
  }

  /** The plain map that a run of operations from an empty table is held to. */
  ghost function ApplyAll(ops: seq<Op>): Entries
    requires forall op :: op in ops ==> op.Ok()
  {
    if ops == [] then map[] else Apply(ApplyAll(ops[..|ops| - 1]), ops[|ops| - 1])
  }

  class Table {
    var ipv4: TrieEntry?
    var ipv6: TrieEntry?
    ghost var g: Graph
    ghost var lists: Lists
    ghost var entries: Entries

    ghost predicate Mirrors()
      reads this`ipv4, this`ipv6, this`g, this`lists, g.links.Keys, lists.Keys
    {
      && ipv4 == g.root4 && ipv6 == g.root6
      && (forall n :: n in g.links ==> n.Read() == g.links[n])
      && (forall p :: p in lists ==> p.trieEntries == lists[p])
    }

    ghost predicate Valid()
      reads this, g.links.Keys, lists.Keys
    {
      Mirrors() && Trie(g) && ListsOk(g, lists) && Stores(g, entries)
    }

    constructor ()
      ensures Valid() && entries == map[] && g.links == map[] && lists == map[]
    {
      ipv4, ipv6, g, lists, entries := null, null, Graph(null, null, map[]), map[], map[];
    }

    function Root(width: nat): TrieEntry?
      reads this
    {
      if width == 32 then ipv4 else ipv6
    }

    method Lookup(ip: Bits) returns (found: Peer?)
      requires Valid() && |ip| in {32, 128}
      ensures found == LongestMatch(entries, ip, |ip|)
    {
      var node := Root(|ip|);
      found := null;
      ghost var visited: set<TrieEntry>, best: TrieEntry? := {}, null;
      assert RootOk(g, |ip|);
      assert node != null ==> NodeOk(g, node);
      while node != null && CommonBits(node.bits, ip) >= node.cidr
        invariant Searching(g, ip, visited, node, best)
        invariant found == if best == null then null else g.links[best].peer
        decreases if node == null then 0 else |ip| + 1 - node.cidr
      {
        CommonBitsAtLeast(node.bits, ip, node.cidr);
        var next := if node.cidr == |ip| then null else node.Child(ip[node.cidr]);
        SearchStep(g, ip, visited, node, best, next);
        if node.peer != null {
          found := node.peer;
          best := node;
        }
        visited := visited + {node};
        node := next;
      }
      if node != null {
        CommonBitsAtLeast(node.bits, ip, node.cidr);
      }
      BestIsLongest(g, entries, ip, visited, node, best);
    }

    method NodePlacement(ip: Bits, cidr: nat) returns (parent: TrieEntry?, exact: bool, ghost visited: set<TrieEntry>)
      requires Mirrors() && Trie(g) && |ip| in {32, 128} && cidr <= |ip|
      ensures exact ==> parent != null && parent in g.links && parent.Key() == PrefixOf(ip, cidr)
      ensures !exact ==> (parent != null ==> parent in g.links && parent.cidr < cidr)
      ensures !exact ==> Missed(g, ip, cidr, visited, parent, Down(g, ip, parent))
    {
      var node := Root(|ip|);
      parent, exact, visited := null, false, {};
      assert RootOk(g, |ip|);
      assert node != null ==> NodeOk(g, node);
      while node != null && node.cidr <= cidr && CommonBits(node.bits, ip) >= node.cidr
        invariant Placing(g, ip, cidr, visited, parent, node)
        decreases if node == null then 0 else |ip| + 1 - node.cidr
      {
        CommonBitsAtLeast(node.bits, ip, node.cidr);
        if node.cidr == cidr {
          parent, exact := node, true;
          assert NodeOk(g, node);
          CoveringKey(node, ip);
          return;
        }
        PlacingStep(g, ip, cidr, visited, parent, node);
        visited := visited + {node};
        parent, node := node, node.Child(ip[node.cidr]);
      }
      if node != null {
        CommonBitsAtLeast(node.bits, ip, node.cidr);
      }
    }

    method SetSlot(slot: ParentSlot, width: nat, c: TrieEntry?)
      requires Mirrors() && (slot.ChildSlot? ==> slot.node in g.links)
      modifies this`ipv4, this`ipv6, this`g, (if slot.ChildSlot? then {slot.node} else {})`child0, (if slot.ChildSlot? then {slot.node} else {})`child1
      ensures g == HangG(old(g), slot, width, c) && Mirrors()
    {
      match slot {
        case Detached =>
        case RootSlot => if width == 32 { ipv4 := c; } else { ipv6 := c; }
        case ChildSlot(n, bit) => if bit { n.child1 := c; } else { n.child0 := c; }
      }
      g := HangG(g, slot, width, c);
    }

    method SetParent(c: TrieEntry, slot: ParentSlot)
      requires Mirrors() && c in g.links
      modifies this`g, c`parent
      ensures g == SetParentG(old(g), c, slot) && Mirrors()
    {
      c.parent := slot;
      g := SetParentG(g, c, slot);
    }

    /** Hang the new node `n` in an empty slot. */
    method LinkEmpty(n: TrieEntry, slot: ParentSlot)
      requires Mirrors() && n !in g.links && n.child0 == null && n.child1 == null
      requires slot.ChildSlot? ==> slot.node in g.links
      modifies this`ipv4, this`ipv6, this`g, n`parent
      modifies (if slot.ChildSlot? then {slot.node} else {})`child0, (if slot.ChildSlot? then {slot.node} else {})`child1
      ensures g == LeafG(old(g), n, n.peer, slot) && Mirrors()
    {
      n.parent := slot;
      SetSlot(slot, |n.bits|, n);
      g := AdoptG(g, n, n.Read());
    }

    /** Hang `top` in the slot that holds `down`, and `down` below `top`. */
    method LinkAbove(top: TrieEntry, bit: bool, down: TrieEntry, slot: ParentSlot)
      requires Mirrors() && down in g.links && top !in g.links && top.child0 == null && top.child1 == null
      requires down.parent == slot && OneSlot(g, down) && |top.bits| == |down.bits|
      modifies this`ipv4, this`ipv6, this`g, top`child0, top`child1, top`parent, down`parent
      modifies (if slot.ChildSlot? then {slot.node} else {})`child0, (if slot.ChildSlot? then {slot.node} else {})`child1
      ensures g == AboveG(old(g), top, top.peer, bit, down) && Mirrors()
    {
      SetParent(down, ChildSlot(top, bit));
      if bit { top.child1 := down; } else { top.child0 := down; }
      top.parent := slot;
      SetSlot(slot, |top.bits|, top);
      g := AdoptG(g, top, top.Read());
    }

    /** Take `node` out, leaving `child` in its slot. */
    method Bypass(node: TrieEntry, child: TrieEntry?)
      requires Mirrors() && node in g.links && OneSlot(g, node) && (child != null ==> child in g.links && child != node)
      modifies this`ipv4, this`ipv6, this`g, g.links.Keys`child0, g.links.Keys`child1, g.links.Keys`parent
      ensures g == BypassG(old(g), node, child) && Mirrors()
    {
      if child != null {
        SetParent(child, node.parent);
      }
      SetSlot(node.parent, |node.bits|, child);
      g := DisownG(g, node);
    }

    ghost predicate Consistent()
      reads this, g.links.Keys, lists.Keys
    {
      Mirrors() && Shape(g) && ListsOk(g, lists) && Stores(g, entries)
    }

    method PushList(n: TrieEntry, peer: Peer)
      requires Mirrors() && peer in lists
      modifies this`lists, peer
      ensures lists == old(lists)[peer := old(lists)[peer] + [n]] && Mirrors()
    {
      peer.trieEntries := peer.trieEntries + [n];
      lists := lists[peer := lists[peer] + [n]];
    }

    /** Hang the new node `n` of `peer` in an empty slot. */
    method GraftLeaf(n: TrieEntry, slot: ParentSlot, peer: Peer)
      requires Consistent() && FitsEmpty(g, n, slot) && n.peer == peer && peer in lists
      requires n.child0 == null && n.child1 == null
      modifies this, n`parent, peer, (if slot.ChildSlot? then {slot.node} else {})`child0, (if slot.ChildSlot? then {slot.node} else {})`child1
      ensures Consistent() && Grown(old(g), g, n, peer, slot) && g.links.Keys == old(g.links.Keys) + {n}
      ensures entries == old(entries)[n.Key() := peer] && lists.Keys == old(lists.Keys)
    {
      hide Mirrors, Shape, ListsOk, Stores, Grown, LeafG, FitsEmpty;
      GraftedLeaf(g, lists, entries, n, peer, slot);
      PushList(n, peer);
      LinkEmpty(n, slot);
      entries := entries[n.Key() := peer];
    }

    /** Put the new node `top` of `peer` in the place of `down`. */
    method GraftAbove(top: TrieEntry, bit: bool, down: TrieEntry, slot: ParentSlot, peer: Peer)
      requires Consistent() && Trie(g) && down in g.links && FitsAbove(g, top, bit, down) && top.peer == peer && peer in lists
      requires top.child0 == null && top.child1 == null && down.parent == slot && OneSlot(g, down)
      modifies this, top`child0, top`child1, top`parent, down`parent, peer
      modifies (if slot.ChildSlot? then {slot.node} else {})`child0, (if slot.ChildSlot? then {slot.node} else {})`child1
      ensures Consistent() && Trie(g) && g.links.Keys == old(g.links.Keys) + {top}
      ensures entries == old(entries)[top.Key() := peer] && lists.Keys == old(lists.Keys)
    {
      hide Mirrors, Shape, ListsOk, Stores, OneSlot, FitsAbove, AboveG;
      GraftedAbove(g, lists, entries, top, peer, bit, down);
      PushList(top, peer);
      LinkAbove(top, bit, down, slot);
      entries := entries[top.Key() := peer];
    }

    /** Put the new node `top`, which stands for no entry, in the place of `down`. */
    method GraftGlue(top: TrieEntry, bit: bool, down: TrieEntry, slot: ParentSlot)
      requires Consistent() && Trie(g) && down in g.links && FitsAbove(g, top, bit, down) && top.peer == null
      requires top.child0 == null && top.child1 == null && down.parent == slot && OneSlot(g, down)
      modifies this`ipv4, this`ipv6, this`g, top`child0, top`child1, top`parent, down`parent
      modifies (if slot.ChildSlot? then {slot.node} else {})`child0, (if slot.ChildSlot? then {slot.node} else {})`child1
      ensures Consistent() && Raised(old(g), g, top, null, bit, down) && g.links.Keys == old(g.links.Keys) + {top}
      ensures forall m :: m in g.links ==> GlueOk(g.links[m]) || (m == top && g.links[top].Child(bit) == down)
    {
      hide Mirrors, Shape, ListsOk, Stores, AboveG, OneSlot, FitsAbove, Raised;
      GraftedGlue(g, lists, entries, top, bit, down);
      LinkAbove(top, bit, down, slot);
      RaisedPeers(old(g), g, top, null, bit, down);
    }

    method SetPeer(n: TrieEntry, peer: Peer?)
      requires Mirrors() && n in g.links
      modifies this`g, n`peer
      ensures g == SetPeerG(old(g), n, peer) && Mirrors()
    {
      n.peer := peer;
      g := SetPeerG(g, n, peer);
    }

    /** Take `n` off the list of its peer, if it has one. */
    method PullList(n: TrieEntry)
      requires Mirrors() && n in g.links && (n.peer != null ==> n.peer in lists)
      modifies this`lists, lists.Keys
      ensures lists == Unlisted(g, old(lists), n) && lists.Keys == old(lists.Keys) && Mirrors()
    {
      if n.peer != null {
        n.peer.trieEntries := Without(n.peer.trieEntries, n);
        lists := lists[n.peer := Without(lists[n.peer], n)];
      }
    }

    /** Give the entry of the existing node `n` to `peer`. */
    method Overwrite(n: TrieEntry, peer: Peer)
      requires Consistent() && Trie(g) && n in g.links && peer in lists
      modifies this`g, this`lists, this`entries, lists.Keys, n`peer
      ensures Consistent() && Trie(g) && g.links.Keys == old(g.links.Keys)
      ensures entries == old(entries)[n.Key() := peer] && lists.Keys == old(lists.Keys)
    {
      hide Mirrors, Trie, Shape, ListsOk, Stores;
      Overwritten(g, lists, entries, n, peer);
      assert n.peer == g.links[n].peer by { MirrorsAt(n); }
      PullList(n);
      SetPeer(n, peer);
      PushList(n, peer);
      entries := entries[n.Key() := peer];
      TrieShape(g);
    }

    lemma MirrorsAt(n: TrieEntry)
      requires Mirrors() && n in g.links
      ensures n.Read() == g.links[n]
    {
    }

    /** Take out `node`, which has no entry and no child other than `child`. */
    method Prune(node: TrieEntry, bit: bool, child: TrieEntry?)
      requires Consistent() && node in g.links && g.links[node].peer == null && GlueOkBut(g, node)
      requires OnlyChild(g.links[node], bit, child)
      modifies this`ipv4, this`ipv6, this`g, g.links.Keys`child0, g.links.Keys`child1, g.links.Keys`parent
      ensures Consistent() && node in old(g).links && Bypassed(old(g), g, node, child)
      ensures child != null || old(g).links[node].parent == RootSlot ==> Trie(g)
      ensures child == null && old(g).links[node].parent.ChildSlot? ==> GlueOkBut(g, old(g).links[node].parent.node)
    {
      hide Mirrors, Shape, ListsOk, Stores, BypassG, OneSlot, Bypassed;
      Bypassing(g, lists, entries, node, bit, child);
      Bypass(node, child);
    }

    method Strip(node: TrieEntry)
      requires Valid() && node in g.links && node.peer != null
      modifies this`g, this`lists, this`entries, lists.Keys, node`peer
      ensures Consistent() && g == SetPeerG(old(g), node, null)
      ensures entries == old(entries) - {node.Key()}
      ensures lists == Unlisted(old(g), old(lists), node) && lists.Keys == old(lists.Keys)
    {
      hide Trie, Shape, ListsOk, Stores, Mirrors;
      MirrorsAt(node);
      Disowned(g, lists, entries, node);
      PullList(node);
      SetPeer(node, null);
      entries := entries - {node.Key()};
    }

    /** Take out `node`, which has lost its entry, and its parent too, if they have become idle. */
    method PruneUp(node: TrieEntry)
      requires Consistent() && node in g.links && node.peer == null && GlueOkBut(g, node)
      modifies this`ipv4, this`ipv6, this`g, g.links.Keys`child0, g.links.Keys`child1, g.links.Keys`parent
      ensures Consistent() && Trie(g) && g.links.Keys <= old(g.links.Keys)
    {
      hide ListsOk, Stores, Shape, Mirrors;
      MirrorsAt(node);
      if node.child0 != null && node.child1 != null {
        return;
      }
      var bit := node.child0 == null;
      var child := node.Child(bit);
      var slot := node.parent;
      ghost var g0 := g;
      PrunedParent(g, node, bit, child);
      Prune(node, bit, child);
      PrunedKeys(g0, g, node, child);
      if child != null || slot.RootSlot? {
        return;
      }
      var parent := slot.node;
      MirrorsAt(parent);
      PrunedSibling(g0, g, node, bit, slot);
      if parent.peer != null {
        return;
      }
      ghost var g1 := g;
      Prune(parent, !slot.bit, parent.Child(!slot.bit));
      PrunedKeys(g1, g, parent, g1.links[parent].Child(!slot.bit));
    }

    /** Take the entry of `node` out of the table. */
    method RemoveNode(node: TrieEntry)
      requires Valid() && node in g.links && node.peer != null
      modifies this, g.links.Keys, lists.Keys
      ensures Valid() && g.links.Keys <= old(g.links.Keys)
      ensures entries == old(entries) - {node.Key()}
      ensures lists == Unlisted(old(g), old(lists), node) && lists.Keys == old(lists.Keys)
    {
      hide ListsOk, Stores, Shape, Mirrors;
      Strip(node);
      MirrorsAt(node);
      PruneUp(node);
    }

    /** A peer the table has not met yet has an empty list. */
    ghost method Register(peer: Peer)
      requires Valid() && (peer in lists || peer.trieEntries == [])
      modifies this`lists
      ensures Valid() && lists.Keys == old(lists.Keys) + {peer} && (forall p :: p in old(lists) ==> lists[p] == old(lists)[p])
    {
      if peer !in lists {
        lists := lists[peer := []];
      }
    }

    /** Put the new node `n`, for `ip`/`cidr`, where a search for it came down to `down`. */
    method Split(n: TrieEntry, ip: Bits, cidr: nat, ghost visited: set<TrieEntry>, parent: TrieEntry?, down: TrieEntry, peer: Peer)
      requires Valid() && Missed(g, ip, cidr, visited, parent, down) && peer in lists
      requires |ip| == |down.bits| && cidr <= |ip| && down in g.links && (parent != null ==> parent in g.links && parent.cidr < cidr)
      requires n !in g.links && n.Key() == PrefixOf(ip, cidr) && n.peer == peer && n.child0 == null && n.child1 == null
      modifies this, g.links.Keys, n, peer
      ensures Valid() && entries == old(entries)[n.Key() := peer] && lists.Keys == old(lists.Keys)
      ensures forall m :: m in g.links ==> m in old(g.links) || m == n || fresh(m)
    {
      hide Shape, ListsOk, Stores, Mirrors, Missed, FitsAbove, Raised, OneSlot;
      // The node's bits alias the caller's address, so from here on the address is masked.
      var masked := n.bits;
      var common := CommonBits(down.bits, masked);
      if common > cidr {
        common := cidr;
      }
      AgreeMasked(down, ip, masked, cidr, common);
      MissedSlot(g, ip, cidr, visited, parent, down);
      MirrorsAt(down);
      ShapeOneSlot(g, down);
      var slot := if parent == null then RootSlot else ChildSlot(parent, masked[parent.cidr]);
      if cidr == common {
        FitsAboveAt(g, ip, cidr, visited, parent, down, cidr, n);
        GraftAbove(n, down.bits[cidr], down, slot, peer);
        return;
      }
      var glue := Branch(n, ip, cidr, visited, parent, down, common, slot, peer);
    }

    /** Hang `down` and the new node `n` below a new node for the `common` bits they share. */
    method Branch(n: TrieEntry, ip: Bits, cidr: nat, ghost visited: set<TrieEntry>, ghost parent: TrieEntry?,
                  down: TrieEntry, common: nat, slot: ParentSlot, peer: Peer)
        returns (glue: TrieEntry)
      requires Valid() && Missed(g, ip, cidr, visited, parent, down) && peer in lists
      requires |ip| == |down.bits| && common < cidr <= |ip| && down in g.links
      requires AgreeOn(down, ip, cidr, common) && down.parent == slot && OneSlot(g, down) && (slot.ChildSlot? ==> slot.node in g.links)
      requires n !in g.links && n.Key() == PrefixOf(ip, cidr) && n.peer == peer && n.child0 == null && n.child1 == null
      modifies this, g.links.Keys, n, peer
      ensures Valid() && entries == old(entries)[n.Key() := peer] && lists.Keys == old(lists.Keys)
      ensures fresh(glue) && g.links.Keys == old(g.links.Keys) + {glue} + {n}
    {
      hide Shape, ListsOk, Stores, Mirrors, Missed, FitsAbove, Raised, OneSlot, Grown, FitsEmpty;
      glue := new TrieEntry(null, n.bits, common);
      GlueKey(glue, ip, n.bits, cidr, common);
      FitsAboveAt(g, ip, cidr, visited, parent, down, common, glue);
      ghost var g0 := g;
      GraftGlue(glue, down.bits[common], down, slot);
      FitsBesideGlue(g0, g, ip, cidr, visited, parent, down, common, glue, n);
      ghost var g1 := g;
      var below := ChildSlot(glue, n.bits[common]);
      assert n.bits[common] == !down.bits[common] by { AgreeBefore(n.bits, ip, cidr, common); }
      GraftLeaf(n, below, peer);
      GrownTrie(g1, g, n, peer, below);
    }

    method Insert(ip: Bits, cidr: nat, peer: Peer)
      requires Valid() && |ip| in {32, 128} && cidr <= |ip| && (peer in lists || peer.trieEntries == [])
      modifies this, g.links.Keys, lists.Keys, peer
      ensures Valid() && entries == old(entries)[PrefixOf(ip, cidr) := peer]
      ensures lists.Keys == old(lists.Keys) + {peer}
      ensures forall m :: m in g.links ==> m in old(g.links) || fresh(m)
    {
      hide Trie, Shape, ListsOk, Stores, Mirrors, Missed;
      Register(peer);
      TrieShape(g);
      var root := Root(|ip|);
      if root == null {
        var node := new TrieEntry(peer, ip, cidr);
        RootMirrors(|ip|);
        EmptyMissed(g, ip, cidr);
        FitsMissed(g, ip, cidr, {}, null, node);
        GraftLeafTrie(node, RootSlot, peer);
        return;
      }
      ghost var visited;
      var node, exact;
      node, exact, visited := NodePlacement(ip, cidr);
      if exact {
        Overwrite(node, peer);
        return;
      }
      Graft(ip, cidr, visited, node, root, peer);
    }

    /** Put a new node for `ip`/`cidr` where the search for it ended, below `node`. */
    method Graft(ip: Bits, cidr: nat, ghost visited: set<TrieEntry>, node: TrieEntry?, root: TrieEntry, peer: Peer)
      requires Valid() && cidr <= |ip| && root == Root(|ip|) && peer in lists
      requires node != null ==> node in g.links && node.cidr < cidr
      requires Missed(g, ip, cidr, visited, node, Down(g, ip, node))
      modifies this, g.links.Keys, peer
      ensures Valid() && entries == old(entries)[PrefixOf(ip, cidr) := peer] && lists.Keys == old(lists.Keys)
      ensures forall m :: m in g.links ==> m in old(g.links) || fresh(m)
    {
      hide Shape, ListsOk, Stores, Mirrors, Missed;
      var newNode := new TrieEntry(peer, ip, cidr);
      RootMirrors(|ip|);
      if node != null { MirrorsAt(node); }
      var down := if node == null then root else node.Child(ip[node.cidr]);
      if down == null {
        FitsMissed(g, ip, cidr, visited, node, newNode);
        GraftLeafTrie(newNode, ChildSlot(node, ip[node.cidr]), peer);
      } else {
        MissedBits(g, ip, cidr, visited, node, down);
        Split(newNode, ip, cidr, visited, node, down, peer);
      }
    }

    lemma RootMirrors(width: nat)
      requires Mirrors()
      ensures Root(width) == g.Root(width)
    {
    }

    /** Hang the new node `n` of `peer` in an empty slot of a complete trie. */
    method GraftLeafTrie(n: TrieEntry, slot: ParentSlot, peer: Peer)
      requires Valid() && FitsEmpty(g, n, slot) && n.peer == peer && peer in lists
      requires n.child0 == null && n.child1 == null
      modifies this, n`parent, peer, (if slot.ChildSlot? then {slot.node} else {})`child0, (if slot.ChildSlot? then {slot.node} else {})`child1
      ensures Valid() && g.links.Keys == old(g.links.Keys) + {n}
      ensures entries == old(entries)[n.Key() := peer] && lists.Keys == old(lists.Keys)
    {
      hide Shape, ListsOk, Stores, Mirrors, FitsEmpty, Grown;
      ghost var g0 := g;
      GraftLeaf(n, slot, peer);
      GrownTrie(g0, g, n, peer, slot);
    }

    method Remove(ip: Bits, cidr: nat, peer: Peer)
      requires Valid() && |ip| in {32, 128} && cidr <= |ip|
      modifies this, g.links.Keys, lists.Keys
      ensures Valid() && g.links.Keys <= old(g.links.Keys) && lists.Keys == old(lists.Keys)
      ensures var k := PrefixOf(ip, cidr);
        entries == if k in old(entries) && old(entries)[k] == peer then old(entries) - {k} else old(entries)
    {
      ghost var visited;
      var node, exact;
      node, exact, visited := NodePlacement(ip, cidr);
      if exact {
        StoresAt(g, entries, node);
      } else {
        MissedAbsent(g, ip, cidr, visited, node, Down(g, ip, node));
        AbsentUnstored(g, entries, PrefixOf(ip, cidr));
      }
      if !exact || peer != node.peer {
        return;
      }
      RemoveNode(node);
    }

    method RemoveByPeer(peer: Peer)
      requires Valid() && (peer in lists || peer.trieEntries == [])
      modifies this, g.links.Keys, lists.Keys
      ensures Valid() && g.links.Keys <= old(g.links.Keys) && lists.Keys == old(lists.Keys) + {peer}
      ensures entries == old(entries) - OwnedBy(old(entries), peer)
    {
      hide Trie, Shape, ListsOk, Stores, Mirrors;
      Register(peer);
      ghost var removed: set<Prefix> := {};
      // Each turn takes the front element off the list, so the next one is the new front.
      while peer.trieEntries != []
        invariant Valid() && g.links.Keys <= old(g.links.Keys) && lists.Keys == old(lists.Keys) + {peer}
        invariant entries == old(entries) - removed && removed <= OwnedBy(old(entries), peer)
        decreases |peer.trieEntries|
      {
        ListMirrors(peer);
        var node := peer.trieEntries[0];
        ListedNode(g, lists, entries, peer, node);
        MirrorsAt(node);
        removed := removed + {node.Key()};
        RemoveNode(node);
        ListMirrors(peer);
      }
      ListMirrors(peer);
      UnlistedOwnsNothing(g, lists, entries, peer);
    }

    lemma ListMirrors(peer: Peer)
      requires Mirrors() && peer in lists
      ensures peer.trieEntries == lists[peer]
    {
    }

    /** Hands the prefixes of `peer` to a callback until it says, after those it has got so far, that it wants no more. */
    method EntriesForPeer(peer: Peer, more: seq<Prefix> -> bool) returns (r: seq<Prefix>)
      requires Valid() && (peer in lists || peer.trieEntries == [])
      ensures forall i, j :: 0 <= i < j < |r| ==> r[i] != r[j]
      ensures forall k :: k in r ==> k in OwnedBy(entries, peer)
      ensures forall i :: 0 < i < |r| ==> more(r[..i])
      ensures r == [] || more(r) ==> forall k :: k in OwnedBy(entries, peer) ==> k in r
    {
      hide Trie, ListsOk, Stores, Mirrors, Shape;
      ghost var all := KeysOf(peer.trieEntries);
      assert (forall i, j :: 0 <= i < j < |all| ==> all[i] != all[j]) && (forall k :: k in all <==> k in OwnedBy(entries, peer)) by {
        UnknownOwnsNothing(g, lists, entries, peer);
        if peer in lists {
          ListMirrors(peer);
          ListedKeys(g, lists, entries, peer, all);
        }
      }
      r := [];
      for i := 0 to |peer.trieEntries|
        invariant r == all[..i]
        invariant forall j :: 0 < j <= i ==> more(all[..j])
      {
        r := r + [Prefix(peer.trieEntries[i].bits, peer.trieEntries[i].cidr)];
        assert r == all[..i + 1] && forall j :: 0 <= j <= |r| ==> r[..j] == all[..j];
        if !more(r) {
          return;
        }
      }
      assert all[..|all|] == all;
    }

    /** The table and its lists touch nothing but `peers` and what has been allocated since. */
    ghost predicate Confined(peers: set<Peer>)
      reads this, peers
    {
      lists.Keys <= peers && forall p :: p in peers && p !in lists ==> p.trieEntries == []
    }

    method Step(op: Op, ghost peers: set<Peer>)
      requires Valid() && Confined(peers) && op.Ok() && op.peer in peers
      modifies this, g.links.Keys, peers
      ensures Valid() && Confined(peers) && entries == Apply(old(entries), op)
      ensures forall m :: m in g.links ==> m in old(g.links) || fresh(m)
    {
      hide Trie, Shape, ListsOk, Stores, Mirrors;
      match op {
        case InsertOp(ip, cidr, peer) => Insert(ip, cidr, peer);
        case RemoveOp(ip, cidr, peer) => Remove(ip, cidr, peer);
        case RemoveByPeerOp(peer) => RemoveByPeer(peer);
      }
    }
  }

  ghost function KeysOf(nodes: seq<TrieEntry>): (r: seq<Prefix>)
    ensures |r| == |nodes| && forall i :: 0 <= i < |nodes| ==> r[i] == nodes[i].Key()
  {
    if nodes == [] then [] else KeysOf(nodes[..|nodes| - 1]) + [nodes[|nodes| - 1].Key()]
  }

  /** Any sequence of operations on an empty table leaves what the plain map would hold. */
  method Run(ops: seq<Op>, ghost peers: set<Peer>) returns (t: Table)
    requires forall op :: op in ops ==> op.Ok() && op.peer in peers
    requires forall p :: p in peers ==> p.trieEntries == []
    modifies peers
    ensures t.Valid() && t.entries == ApplyAll(ops)
  {
    hide Table.Valid;
    t := new Table();
    for i := 0 to |ops|
      invariant fresh(t) && t.Valid() && t.Confined(peers)
      invariant forall m :: m in t.g.links ==> fresh(m)
      invariant t.entries == ApplyAll(ops[..i])
    {
      t.Step(ops[i], peers);
      assert ops[..i + 1][..i] == ops[..i];
    }
    assert ops[..|ops|] == ops;
  }
}
