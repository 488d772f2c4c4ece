/** Finding nodes by path, and the references that are taken and given back on the way. */
module Lookup {
  import Checksum
  import opened Content
  import opened Entries
  import opened Options
  import opened Utf

  const SLASH: byte := 0x2f
  const DOT: byte := 0x2e

  datatype Code = Ok | NoEntry | Illegal | TooLong | IoError | Aborted

  // --- names without regard to case ---

  function UnitAt(u: seq<unit>, i: nat): unit {
    if i < |u| then u[i] else 0
  }

  predicate Table(upcase: seq<unit>) {
    |upcase| == 0x1_0000
  }

  function Folded(upcase: seq<unit>, u: seq<unit>): seq<unit>
    requires Table(upcase)
  {
    if u == [] then [] else [upcase[u[0]]] + Folded(upcase, u[1..])
  }

  /** Zero for names that are to be taken as the same. */
  method CompareName(upcase: seq<unit>, a: seq<unit>, b: seq<unit>) returns (rc: int)
    requires Table(upcase)
    ensures rc == 0 <==> SameButCase(upcase, Name(a), Name(b))
  {
    hide Name, SameButCase;
    var i: nat := 0;
    assert a[0..] == a && b[0..] == b;
    while UnitAt(a, i) != 0 && UnitAt(b, i) != 0
      invariant i <= |a| && i <= |b|
      invariant SameButCase(upcase, Name(a), Name(b)) <==> SameButCase(upcase, Name(a[i..]), Name(b[i..]))
      decreases |a| - i
    {
      rc := CompareChar(upcase, a[i], b[i]);
      SameButCaseNext(upcase, a[i..], b[i..]);
      assert a[i..][1..] == a[i + 1..] && b[i..][1..] == b[i + 1..];
      if rc != 0 {
        return;
      }
      i := i + 1;
    }
    SameButCaseEnds(upcase, a, b, i);
    rc := CompareChar(upcase, UnitAt(a, i), UnitAt(b, i));
  }

  function CompareChar(upcase: seq<unit>, a: unit, b: unit): (r: int)
    requires Table(upcase)
    ensures r == 0 <==> upcase[a] == upcase[b]
  {
    var x: int, y: int := upcase[a], upcase[b];
    x - y
  }

  lemma SameButCaseNext(upcase: seq<unit>, a: seq<unit>, b: seq<unit>)
    requires Table(upcase) && a != [] && b != [] && a[0] != 0 && b[0] != 0
    ensures SameButCase(upcase, Name(a), Name(b))
            <==> upcase[a[0]] == upcase[b[0]] && SameButCase(upcase, Name(a[1..]), Name(b[1..]))
  {
    NameNext(a);
    NameNext(b);
    assert Name(a)[1..] == Name(a[1..]) && Name(b)[1..] == Name(b[1..]);
  }

  lemma SameButCaseEnds(upcase: seq<unit>, a: seq<unit>, b: seq<unit>, i: nat)
    requires Table(upcase) && i <= |a| && i <= |b| && (UnitAt(a, i) == 0 || UnitAt(b, i) == 0)
    ensures SameButCase(upcase, Name(a[i..]), Name(b[i..])) <==> upcase[UnitAt(a, i)] == upcase[UnitAt(b, i)]
  {
    NamesFrom(a, i);
    NamesFrom(b, i);
  }

  lemma NamesFrom(u: seq<unit>, i: nat)
    requires i <= |u|
    ensures UnitAt(u, i) == 0 ==> Name(u[i..]) == []
    ensures UnitAt(u, i) != 0 ==> Name(u[i..]) != [] && Name(u[i..])[0] == UnitAt(u, i)
  {
  }

  /** The same but for case; where one ends and the other does not, the next unit must be one that counts as nothing. */
  predicate SameButCase(upcase: seq<unit>, a: seq<unit>, b: seq<unit>)
    requires Table(upcase)
  {
    if a != [] && b != [] then upcase[a[0]] == upcase[b[0]] && SameButCase(upcase, a[1..], b[1..])
    else upcase[UnitAt(a, 0)] == upcase[UnitAt(b, 0)]
  }

  /** With a table that takes nothing but zero for zero, that is equality of the folded names. */
  lemma {:induction false} SameButCaseFolds(upcase: seq<unit>, a: seq<unit>, b: seq<unit>)
    requires Table(upcase) && 0 !in a && 0 !in b
    requires forall u: unit :: u != 0 ==> upcase[u] != upcase[0]
    ensures SameButCase(upcase, a, b) <==> Folded(upcase, a) == Folded(upcase, b)
  {
    if a != [] && b != [] {
      SameButCaseFolds(upcase, a[1..], b[1..]);
      var fa, fb := Folded(upcase, a), Folded(upcase, b);
      assert fa[1..] == Folded(upcase, a[1..]) && fb[1..] == Folded(upcase, b[1..]);
    } else if a != [] {
      assert a[0] in a;
    } else if b != [] {
      assert b[0] in b;
    }
  }

  lemma {:induction false} FoldedLength(upcase: seq<unit>, u: seq<unit>)
    requires Table(upcase)
    ensures |Folded(upcase, u)| == |u| && forall i :: 0 <= i < |u| ==> Folded(upcase, u)[i] == upcase[u[i]]
  {
    if u != [] {
      FoldedLength(upcase, u[1..]);
    }
  }

  /** Names that are the same but for case are equally long, and so are their entry sets. */
  lemma SameButCaseLength(upcase: seq<unit>, a: seq<unit>, b: seq<unit>)
    requires Table(upcase) && Buffer(a) && Buffer(b) && SameButCase(upcase, Name(a), Name(b))
    requires forall u: unit :: u != 0 ==> upcase[u] != upcase[0]
    ensures |Name(a)| == |Name(b)| && NameParts(a) == NameParts(b)
  {
    SameButCaseFolds(upcase, Name(a), Name(b));
    FoldedLength(upcase, Name(a));
    FoldedLength(upcase, Name(b));
  }

  // --- the hash of a name ---

  /** The hash in a file's second entry: the 16-bit sum over the bytes of its folded name, low byte first. */
  function Hash(upcase: seq<unit>, name: seq<unit>): (h: nat)
    requires Table(upcase)
    ensures h < 0x1_0000
  {
    Checksum.Fold(Checksum.Sixteen, 0, NameBytes(Folded(upcase, name)))
  }

  method CalcNameHash(upcase: seq<unit>, name: seq<unit>) returns (hash: nat)
    requires Table(upcase)
    ensures hash == Hash(upcase, Name(name))
  {
    hide Folded, NameBytes, Checksum.Fold, Checksum.Step;
    hash := 0;
    var length, i := |Name(name)|, 0;
    HashNone(upcase);
    assert Name(name)[..0] == [];
    while i < length
      invariant i <= length && hash < 0x1_0000 && hash == Hash(upcase, Name(name)[..i])
    {
      var c: nat := upcase[name[i]];
      hash := Checksum.Step(Checksum.Sixteen, hash, c % 0x100);
      hash := Checksum.Step(Checksum.Sixteen, hash, c / 0x100);
      HashNext(upcase, Name(name)[..i], name[i]);
      assert Name(name)[..i] + [name[i]] == Name(name)[..i + 1];
      i := i + 1;
    }
    assert Name(name)[..i] == Name(name);
  }

  lemma HashNone(upcase: seq<unit>)
    requires Table(upcase)
    ensures Hash(upcase, []) == 0
  {
  }

  lemma HashNext(upcase: seq<unit>, u: seq<unit>, c: unit)
    requires Table(upcase)
    ensures var b: nat := upcase[c];
            Hash(upcase, u + [c])
            == Checksum.Step(Checksum.Sixteen, Checksum.Step(Checksum.Sixteen, Hash(upcase, u), b % 0x100), b / 0x100)
  {
    hide Checksum.Step, Checksum.Fold;
    var folded: seq<unit>, b: nat := Folded(upcase, u), upcase[c];
    var bytes, low, high := NameBytes(folded), [b % 0x100], [b / 0x100];
    FoldedOne(upcase, u, c);
    assert (folded + [upcase[c]])[..|folded|] == folded;
    assert NameBytes(folded + [upcase[c]]) == bytes + low + high;
    Checksum.FoldAppend(Checksum.Sixteen, 0, bytes, low);
    Checksum.FoldAppend(Checksum.Sixteen, 0, bytes + low, high);
    Checksum.FoldOne(Checksum.Sixteen, Hash(upcase, u), b % 0x100);
    Checksum.FoldOne(Checksum.Sixteen, Checksum.Fold(Checksum.Sixteen, 0, bytes + low), b / 0x100);
  }

  /** Unit by unit: the folded unit's low byte is taken in and then its high byte, each after a turn by one bit. */
  lemma HashIs(upcase: seq<unit>, u: seq<unit>, c: unit)
    requires Table(upcase)
    ensures Hash(upcase, []) == 0
    ensures var t, b: nat := Hash(upcase, u), upcase[c];
            var half := (t / 2 + 0x8000 * (t % 2) + b % 256) % 0x1_0000;
            Hash(upcase, u + [c]) == (half / 2 + 0x8000 * (half % 2) + b / 256) % 0x1_0000
  {
    hide Hash;
    HashNone(upcase);
    HashNext(upcase, u, c);
    var t, b: nat := Hash(upcase, u), upcase[c];
    Checksum.ShortStep(t, b % 256);
    Checksum.ShortStep(Checksum.Step(Checksum.Sixteen, t, b % 256), b / 256);
  }

  lemma {:induction false} FoldedOne(upcase: seq<unit>, u: seq<unit>, c: unit)
    requires Table(upcase)
    ensures Folded(upcase, u + [c]) == Folded(upcase, u) + [upcase[c]]
  {
    if u == [] {
      assert [c][1..] == [];
    } else {
      FoldedOne(upcase, u[1..], c);
      assert (u + [c])[1..] == u[1..] + [c];
    }
  }

  /** Names that are the same but for case have the same hash, so a reader may pass over entries with another hash. */
  lemma SameHash(upcase: seq<unit>, a: seq<unit>, b: seq<unit>)
    requires Table(upcase) && SameButCase(upcase, Name(a), Name(b))
    requires forall u: unit :: u != 0 ==> upcase[u] != upcase[0]
    ensures Hash(upcase, Name(a)) == Hash(upcase, Name(b))
  {
    SameButCaseFolds(upcase, Name(a), Name(b));
  }

  // --- nodes ---

  /** What is stored below a directory that has not been read yet; nothing if reading it fails. */
  datatype Stored = Stored(name: seq<unit>, isDirectory: bool, content: Option<seq<Stored>>)

  /** A node in core. Its children are listed in the order of the sibling pointers. */
  class Node {
    var references: int
    const name: seq<unit>
    const isDirectory: bool
    const content: Option<seq<Stored>>
    var cached: bool
    var kids: seq<Node>

    constructor (s: Stored)
      ensures references == 0 && kids == [] && !cached
      ensures name == s.name && isDirectory == s.isDirectory && content == s.content
    {
      name, isDirectory, content := s.name, s.isDirectory, s.content;
      references, kids, cached := 0, [], false;
    }
  }

  /** A directory being listed: the child it is at, none before the first and after the last. */
  class Iterator {
    const parent: Node
    var at: int

    constructor (parent: Node)
      ensures this.parent == parent && at == -1
    {
      this.parent, at := parent, -1;
    }
  }

  /** The children of the directories that have been read. */
  type Listings = map<Node, seq<Node>>

  /** The nodes of a directory that has just been read: one for each file in it, itself not read. */
  ghost predicate Unread(kids: seq<Node>, content: seq<Stored>)
    reads kids
  {
    && |kids| == |content|
    && forall i :: 0 <= i < |kids| ==>
         && Stored(kids[i].name, kids[i].isDirectory, kids[i].content) == content[i]
         && !kids[i].cached && kids[i].kids == []
  }

  /** A node for each file of a directory. */
  method ReadNodes(content: seq<Stored>) returns (kids: seq<Node>, ghost made: set<Node>)
    ensures fresh(made) && (forall k :: k in kids <==> k in made) && Unread(kids, content)
    ensures forall k :: k in made ==> k.references == 0 && k.kids == [] && !k.cached
  {
    kids, made := [], {};
    var i := 0;
    while i < |content|
      invariant i <= |content| && |kids| == i
      invariant fresh(made) && (forall k :: k in kids <==> k in made)
      invariant forall k :: k in made ==> k.references == 0 && k.kids == [] && !k.cached
      invariant forall j :: 0 <= j < i ==>
                  Stored(kids[j].name, kids[j].isDirectory, kids[j].content) == content[j]
      modifies {}
    {
      var node := new Node(content[i]);
      kids, made := kids + [node], made + {node};
      i := i + 1;
    }
  }

  class FileSystem {
    const root: Node
    const upcase: seq<unit>
    ghost var nodes: set<Node>

    constructor (root: Node, upcase: seq<unit>)
      requires Table(upcase) && root.kids == []
      ensures Valid() && this.root == root && nodes == {root}
    {
      this.root, this.upcase, nodes := root, upcase, {root};
    }

    ghost predicate Valid()
      reads this, nodes
    {
      root in nodes && Table(upcase) && forall n, k :: n in nodes && k in n.kids ==> k in nodes
    }

    /** The directories whose children are in core, with those children. */
    ghost function Known(): Listings
      reads `nodes, nodes`cached, nodes`kids
    {
      map n | n in nodes && n.cached :: n.kids
    }

    /** Every node has the references it had, none if it is new, and one more for each time it is in `plus`. */
    ghost predicate Balanced(before: map<Node, int>, plus: multiset<Node>)
      reads this, nodes
    {
      && before.Keys <= nodes
      && forall n :: n in nodes ==> n.references == Had(before, n) + plus[n]
    }

    lemma KnownIs(n: Node)
      requires n in nodes
      ensures n in Known() <==> n.cached
      ensures n.cached ==> Known() == Known()[n := n.kids]
    {
    }

    lemma RootIn()
      requires Valid()
      ensures root in nodes && Table(upcase)
    {
    }

    method GetNode(node: Node, ghost before: map<Node, int>, ghost plus: multiset<Node>)
      requires Valid() && node in nodes && Balanced(before, plus)
      modifies node`references
      ensures Valid() && Balanced(before, plus + multiset{node}) && Known() == old(Known())
    {
      node.references := node.references + 1;
    }

    method PutNode(node: Node, ghost before: map<Node, int>, ghost plus: multiset<Node>)
      requires Valid() && node in nodes && node in plus && Balanced(before, plus)
      modifies node`references
      ensures Valid() && Balanced(before, plus - multiset{node}) && Known() == old(Known())
    {
      node.references := node.references - 1;
      if node.references < 0 {
        return;
      }
    }

    /** Gives a directory its children. */
    method Adopt(dir: Node, kids: seq<Node>, ghost made: set<Node>, ghost before: map<Node, int>,
                 ghost plus: multiset<Node>)
      requires Valid() && dir in nodes && !dir.cached && Balanced(before, plus)
      requires made !! nodes && forall k :: k in kids ==> k in made
      requires forall k :: k in made ==> k.references == 0 && k.kids == [] && !k.cached && k !in plus && k !in before
      modifies this, dir
      ensures Valid() && nodes == old(nodes) + made && Balanced(before, plus)
      ensures dir.cached && dir.kids == kids && Known() == old(Known())[dir := kids]
    {
      dir.kids := kids;
      dir.cached := true;
      nodes := nodes + made;
    }

    /** Reads a directory's children unless that has been done. Listing what is no directory ends the program. */
    method CacheDirectory(dir: Node, ghost before: map<Node, int>, ghost plus: multiset<Node>) returns (rc: Code)
      requires Valid() && dir in nodes && Balanced(before, plus)
      modifies this, dir
      ensures Valid() && old(nodes) <= nodes && fresh(nodes - old(nodes)) && Balanced(before, plus)
      ensures rc == if old(dir.cached) then Ok else if !dir.isDirectory then Aborted
                    else if dir.content == None then IoError else Ok
      ensures rc != Ok ==> nodes == old(nodes) && Known() == old(Known())
      ensures rc == Ok ==> dir.cached && Known() == old(Known())[dir := dir.kids]
      ensures Grows(old(Known()), Known())
      ensures rc == Ok ==> if old(dir.cached) then nodes == old(nodes) && dir.kids == old(dir.kids)
                           else dir.content.Some? && Unread(dir.kids, dir.content.value)
    {
      hide Unread, Grows, Known;
      KnownIs(dir);
      GrowsNot(Known());
      if dir.cached {
        return Ok;
      }
      if !dir.isDirectory {
        return Aborted;
      }
      if dir.content == None {
        return IoError;
      }
      var kids, made := ReadNodes(dir.content.value);
      GrowsBy(Known(), dir, kids);
      Adopt(dir, kids, made, before, plus);
      return Ok;
    }

    /** Begins to list a directory, holding a reference to it. */
    method Opendir(dir: Node, ghost before: map<Node, int>, ghost plus: multiset<Node>) returns (rc: Code, it: Iterator)
      requires Valid() && dir in nodes && Balanced(before, plus)
      modifies this, dir
      ensures Valid() && old(nodes) <= nodes && fresh(nodes - old(nodes))
      ensures fresh(it) && it.parent == dir && it.at == -1
      ensures Balanced(before, if rc == Ok then plus + multiset{dir} else plus)
      ensures rc == if old(dir.cached) then Ok else if !dir.isDirectory then Aborted
                    else if dir.content == None then IoError else Ok
      ensures Known() == if rc == Ok then old(Known())[dir := dir.kids] else old(Known())
      ensures (rc == Ok ==> dir.cached) && Grows(old(Known()), Known())
    {
      hide Known, Grows, Unread, Balanced, Valid;
      GetNode(dir, before, plus);
      it := new Iterator(dir);
      rc := CacheDirectory(dir, before, plus + multiset{dir});
      if rc != Ok {
        PutNode(dir, before, plus + multiset{dir});
        assert plus + multiset{dir} - multiset{dir} == plus;
      }
    }

    method Closedir(it: Iterator, ghost before: map<Node, int>, ghost plus: multiset<Node>)
      requires Valid() && it.parent in nodes && it.parent in plus && Balanced(before, plus)
      modifies it.parent`references
      ensures Valid() && Balanced(before, plus - multiset{it.parent}) && Known() == old(Known())
    {
      PutNode(it.parent, before, plus);
    }

    /** The next child, with a reference to it. */
    method Readdir(it: Iterator, ghost before: map<Node, int>, ghost plus: multiset<Node>) returns (node: Node?)
      requires Valid() && it.parent in nodes && -1 <= it.at < |it.parent.kids| && Balanced(before, plus)
      modifies it, (set k | k in it.parent.kids)`references
      ensures it.at == old(it.at) + 1 && Valid() && Known() == old(Known())
      ensures node == if it.at < |it.parent.kids| then it.parent.kids[it.at] else null
      ensures node != null ==> node in nodes && Balanced(before, plus + multiset{node})
      ensures node == null ==> Balanced(before, plus)
    {
      it.at := it.at + 1;
      if it.at < |it.parent.kids| {
        node := it.parent.kids[it.at];
        GetNode(node, before, plus);
      } else {
        node := null;
      }
    }
  }

  ghost function Had(before: map<Node, int>, n: Node): int {
    if n in before then before[n] else 0
  }

  // --- paths ---

  /** How many bytes come before the next slash. */
  function Length(path: seq<byte>): (n: nat)
    ensures n <= |path| && (n < |path| ==> path[n] == SLASH) && forall i :: 0 <= i < n ==> path[i] != SLASH
  {
    if path == [] || path[0] == SLASH then 0 else 1 + Length(path[1..])
  }

  /** The names in a path. */
  function Components(path: seq<byte>): seq<seq<byte>>
    decreases |path|
  {
    if path == [] then []
    else if path[0] == SLASH then Components(path[1..])
    else [path[..Length(path)]] + Components(path[Length(path)..])
  }

  /** The next component of a path from `p` on: where it begins and how long it is; no length at the end. */
  method GetComp(path: seq<byte>, p: nat) returns (comp: nat, n: nat)
    requires p <= |path|
    ensures p <= comp && comp + n <= |path|
    ensures Components(path[p..]) == Ahead(path, comp, n)
  {
    hide Components;
    comp := p;
    while comp < |path| && path[comp] == SLASH
      invariant p <= comp <= |path|
      invariant Components(path[comp..]) == Components(path[p..])
    {
      ComponentsSlash(path, comp);
      comp := comp + 1;
    }
    var end := comp;
    while end < |path| && path[end] != SLASH
      invariant comp <= end <= |path|
      invariant forall i :: comp <= i < end ==> path[i] != SLASH
    {
      end := end + 1;
    }
    n := end - comp;
    ComponentsHead(path, comp, n);
  }

  lemma ComponentsSlash(path: seq<byte>, p: nat)
    requires p < |path| && path[p] == SLASH
    ensures Components(path[p..]) == Components(path[p + 1..])
  {
    assert path[p..][1..] == path[p + 1..];
  }

  lemma ComponentsHead(path: seq<byte>, p: nat, n: nat)
    requires p + n <= |path| && (n == 0 ==> p == |path|)
    requires (forall i :: p <= i < p + n ==> path[i] != SLASH) && (p + n < |path| ==> path[p + n] == SLASH)
    ensures Components(path[p..]) == if n == 0 then [] else [path[p..p + n]] + Components(path[p + n..])
  {
    if n > 0 {
      LengthIs(path[p..], n);
      assert path[p..][..n] == path[p..p + n] && path[p..][n..] == path[p + n..];
    }
  }

  lemma {:induction false} LengthIs(path: seq<byte>, n: nat)
    requires n <= |path| && (n < |path| ==> path[n] == SLASH) && forall i :: 0 <= i < n ==> path[i] != SLASH
    ensures Length(path) == n
  {
    if n > 0 {
      LengthIs(path[1..], n - 1);
    }
  }

  /** Which components a path has, however many slashes there are between them. */
  lemma ComponentsAre(c: seq<byte>, path: seq<byte>)
    ensures Components([]) == [] && Components([0x2f] + path) == Components(path)
    ensures c != [] && 0x2f !in c && (path == [] || path[0] == 0x2f) ==>
              Components(c + path) == [c] + Components(path)
  {
    assert ([0x2f] + path)[1..] == path;
    if c != [] && 0x2f !in c && (path == [] || path[0] == 0x2f) {
      assert forall i :: 0 <= i < |c| ==> (c + path)[i] == c[i] && c[i] in c;
      LengthIs(c + path, |c|);
      assert (c + path)[..|c|] == c && (c + path)[|c|..] == path;
    }
  }

  /** A path that names something: its last component is there and is not ".". */
  predicate Proper(path: seq<byte>) {
    var cs := Components(path);
    cs != [] && Last(cs) != [DOT]
  }

  /** Characters that no new name may have. */
  predicate Forbidden(c: byte) {
    0x01 <= c <= 0x1f || c == SLASH || c == 0x5c || c == 0x3a || c == 0x2a || c == 0x3f || c == 0x22 || c == 0x3c
    || c == 0x3e || c == 0x7c
  }

  lemma ForbiddenAre(c: byte)
    ensures Forbidden(c) <==> 1 <= c < 32 || c as char in "\"*/:<>?\\|"
  {
  }

  method IsAllowed(comp: seq<byte>) returns (ok: bool)
    ensures ok <==> forall i :: 0 <= i < |comp| ==> !Forbidden(comp[i])
  {
    var i := 0;
    while i < |comp|
      invariant i <= |comp| && forall j :: 0 <= j < i ==> !Forbidden(comp[j])
    {
      if Forbidden(comp[i]) {
        return false;
      }
      i := i + 1;
    }
    ok := true;
  }

  function CodeOf(c: Converted<unit>): Code {
    match c
    case Done(_) => Ok
    case IllegalSequence => Illegal
    case NameTooLong => TooLong
  }

  /** The first child of that name. */
  ghost predicate FirstNamed(upcase: seq<unit>, kids: seq<Node>, u: seq<unit>, node: Node)
    requires Table(upcase)
  {
    exists i :: 0 <= i < |kids| && kids[i] == node && SameButCase(upcase, Name(u), Name(node.name))
                && forall j :: 0 <= j < i ==> !SameButCase(upcase, Name(u), Name(kids[j].name))
  }

  ghost predicate NoneNamed(upcase: seq<unit>, kids: seq<Node>, u: seq<unit>)
    requires Table(upcase)
  {
    forall j :: 0 <= j < |kids| ==> !SameButCase(upcase, Name(u), Name(kids[j].name))
  }

  /** One component leads from a directory to a child. */
  ghost predicate Step(k: Listings, upcase: seq<unit>, from: Node, comp: seq<byte>, to: Node)
    requires Table(upcase)
  {
    && from in k && ToUtf16(comp, NAME_MAX).Done?
    && FirstNamed(upcase, k[from], ToUtf16(comp, NAME_MAX).output, to)
  }

  /** One component leads nowhere from a node, and why. */
  ghost predicate Stuck(k: Listings, upcase: seq<unit>, from: Node, comp: seq<byte>, rc: Code)
    requires Table(upcase)
  {
    var name := ToUtf16(comp, NAME_MAX);
    if !name.Done? then rc == CodeOf(name)
    else if from in k then rc == NoEntry && NoneNamed(upcase, k[from], name.output)
    else if !from.isDirectory then rc == Aborted
    else rc == IoError && from.content == None
  }

  /** What has been read stays as it was read. */
  ghost predicate Grows(k: Listings, k': Listings) {
    forall n :: n in k ==> n in k' && k'[n] == k[n]
  }

  lemma GrowsOn(a: Listings, b: Listings, c: Listings)
    requires Grows(a, b) && Grows(b, c)
    ensures Grows(a, c)
  {
  }

  lemma GrowsBy(k: Listings, dir: Node, kids: seq<Node>)
    requires dir !in k
    ensures Grows(k, k[dir := kids])
  {
  }

  lemma GrowsNot(k: Listings)
    ensures Grows(k, k)
  {
  }

  /** The components lead from the root to a node. */
  ghost predicate Leads(k: Listings, upcase: seq<unit>, root: Node, comps: seq<seq<byte>>, to: Node)
    requires Table(upcase)
    decreases |comps|
  {
    if comps == [] then to == root
    else
      var c, above := comps[|comps| - 1], comps[..|comps| - 1];
      if c == [DOT] then Leads(k, upcase, root, above, to)
      else exists mid :: mid in k && Leads(k, upcase, root, above, mid) && Step(k, upcase, mid, c, to)
  }

  /** One component more: "." leads nowhere else, any other to the first child of that name. */
  lemma LeadsFrom(k: Listings, upcase: seq<unit>, root: Node, comps: seq<seq<byte>>, c: seq<byte>, to: Node)
    requires Table(upcase)
    ensures Leads(k, upcase, root, [], to) <==> to == root
    ensures Leads(k, upcase, root, comps + [[0x2e]], to) <==> Leads(k, upcase, root, comps, to)
    ensures c != [0x2e] ==>
              (Leads(k, upcase, root, comps + [c], to) <==>
               exists mid :: mid in k && Leads(k, upcase, root, comps, mid) && Step(k, upcase, mid, c, to))
  {
    hide Step;
    assert (comps + [[0x2e]])[..|comps|] == comps && (comps + [c])[..|comps|] == comps;
  }

  /** Some of the components lead to a node from which the next one leads nowhere. */
  ghost predicate Stops(k: Listings, nodes: set<Node>, upcase: seq<unit>, root: Node, comps: seq<seq<byte>>, rc: Code)
    requires Table(upcase)
  {
    exists i, mid :: 0 <= i < |comps| && comps[i] != [DOT] && mid in nodes
                     && Leads(k, upcase, root, comps[..i], mid) && Stuck(k, upcase, mid, comps[i], rc)
  }

  lemma LeadsOn(k: Listings, upcase: seq<unit>, root: Node, comps: seq<seq<byte>>, mid: Node, c: seq<byte>, to: Node)
    requires Table(upcase) && Leads(k, upcase, root, comps, mid)
    requires if c == [DOT] then to == mid else Step(k, upcase, mid, c, to)
    ensures Leads(k, upcase, root, comps + [c], to)
  {
    hide Step;
    assert (comps + [c])[..|comps|] == comps;
    if c != [DOT] {
      assert mid in k by { StepFrom(k, upcase, mid, c, to); }
    }
  }

  lemma StepFrom(k: Listings, upcase: seq<unit>, from: Node, comp: seq<byte>, to: Node)
    requires Table(upcase) && Step(k, upcase, from, comp, to)
    ensures from in k
  {
  }

  lemma StopsHere(k: Listings, nodes: set<Node>, upcase: seq<unit>, root: Node, done: seq<seq<byte>>, mid: Node,
                  c: seq<byte>, rest: seq<seq<byte>>, rc: Code)
    requires Table(upcase) && Leads(k, upcase, root, done, mid) && mid in nodes
    requires c != [DOT] && Stuck(k, upcase, mid, c, rc)
    ensures Stops(k, nodes, upcase, root, done + [c] + rest, rc)
  {
    hide Leads, Stuck;
    var comps := done + [c] + rest;
    assert comps[|done|] == c && comps[..|done|] == done;
  }

  /** Reading more directories changes nothing about where a path leads. */
  lemma {:induction false} LeadsStill(k: Listings, k': Listings, upcase: seq<unit>, root: Node,
                                      comps: seq<seq<byte>>, to: Node)
    requires Table(upcase) && Grows(k, k') && Leads(k, upcase, root, comps, to)
    ensures Leads(k', upcase, root, comps, to)
    decreases |comps|
  {
    if comps != [] {
      var c, above := comps[|comps| - 1], comps[..|comps| - 1];
      if c == [DOT] {
        LeadsStill(k, k', upcase, root, above, to);
      } else {
        var mid :| mid in k && Leads(k, upcase, root, above, mid) && Step(k, upcase, mid, c, to);
        LeadsStill(k, k', upcase, root, above, mid);
        assert mid in k' && Step(k', upcase, mid, c, to);
      }
    }
  }

  /** A path leads to one node only, whatever has been read between two lookups. */
  lemma {:induction false} LeadsOnce(k: Listings, k': Listings, upcase: seq<unit>, root: Node, comps: seq<seq<byte>>,
                                     a: Node, b: Node)
    requires Table(upcase) && Grows(k, k') && Leads(k, upcase, root, comps, a) && Leads(k', upcase, root, comps, b)
    ensures a == b
    decreases |comps|
  {
    if comps != [] {
      var c, above := comps[|comps| - 1], comps[..|comps| - 1];
      if c == [DOT] {
        LeadsOnce(k, k', upcase, root, above, a, b);
      } else {
        var m :| m in k && Leads(k, upcase, root, above, m) && Step(k, upcase, m, c, a);
        var n :| n in k' && Leads(k', upcase, root, above, n) && Step(k', upcase, n, c, b);
        LeadsOnce(k, k', upcase, root, above, m, n);
        FirstOnce(upcase, k[m], ToUtf16(c, NAME_MAX).output, a, b);
      }
    }
  }

  lemma FirstOnce(upcase: seq<unit>, kids: seq<Node>, u: seq<unit>, a: Node, b: Node)
    requires Table(upcase) && FirstNamed(upcase, kids, u, a) && FirstNamed(upcase, kids, u, b)
    ensures a == b
  {
    hide SameButCase, Name;
    var i :| 0 <= i < |kids| && kids[i] == a && SameButCase(upcase, Name(u), Name(a.name))
             && forall j :: 0 <= j < i ==> !SameButCase(upcase, Name(u), Name(kids[j].name));
    var i' :| 0 <= i' < |kids| && kids[i'] == b && SameButCase(upcase, Name(u), Name(b.name))
              && forall j :: 0 <= j < i' ==> !SameButCase(upcase, Name(u), Name(kids[j].name));
  }

  /** A path either leads somewhere or stops, not both. */
  lemma LeadsNotStops(k: Listings, nodes: set<Node>, upcase: seq<unit>, root: Node, comps: seq<seq<byte>>, to: Node,
                      rc: Code)
    requires Table(upcase) && Leads(k, upcase, root, comps, to)
    ensures !Stops(k, nodes, upcase, root, comps, rc)
  {
    hide Leads, Stuck;
    if Stops(k, nodes, upcase, root, comps, rc) {
      var i, mid :| 0 <= i < |comps| && comps[i] != [DOT] && mid in nodes
                    && Leads(k, upcase, root, comps[..i], mid) && Stuck(k, upcase, mid, comps[i], rc);
      NotStuck(k, upcase, root, comps, to, i, mid, rc);
    }
  }

  lemma {:induction false} NotStuck(k: Listings, upcase: seq<unit>, root: Node, comps: seq<seq<byte>>, to: Node, i: nat,
                                    mid: Node, rc: Code)
    requires Table(upcase) && Leads(k, upcase, root, comps, to) && i < |comps| && comps[i] != [DOT]
    requires Leads(k, upcase, root, comps[..i], mid)
    ensures !Stuck(k, upcase, mid, comps[i], rc)
    decreases |comps|
  {
    hide FirstNamed, NoneNamed, ToUtf16;
    var c, above := comps[|comps| - 1], comps[..|comps| - 1];
    if i < |comps| - 1 {
      assert above[..i] == comps[..i];
      if c == [DOT] {
        NotStuck(k, upcase, root, above, to, i, mid, rc);
      } else {
        var m :| m in k && Leads(k, upcase, root, above, m) && Step(k, upcase, m, c, to);
        NotStuck(k, upcase, root, above, m, i, mid, rc);
      }
    } else {
      var m :| m in k && Leads(k, upcase, root, above, m) && Step(k, upcase, m, c, to);
      LeadsOnce(k, k, upcase, root, above, m, mid);
      FirstNotNone(upcase, k[m], ToUtf16(c, NAME_MAX).output, to);
    }
  }

  lemma FirstNotNone(upcase: seq<unit>, kids: seq<Node>, u: seq<unit>, node: Node)
    requires Table(upcase) && FirstNamed(upcase, kids, u, node)
    ensures !NoneNamed(upcase, kids, u)
  {
    hide SameButCase, Name;
  }

  /** Finds a name in a directory: the first child that has it, with one reference more. Otherwise no references are
      left behind. */
  method LookupName(fs: FileSystem, parent: Node, comp: seq<byte>, ghost before: map<Node, int>,
                    ghost plus: multiset<Node>)
    returns (rc: Code, node: Node?)
    requires fs.Valid() && parent in fs.nodes && fs.Balanced(before, plus)
    modifies fs, fs.nodes
    ensures fs.Valid() && old(fs.nodes) <= fs.nodes && fresh(fs.nodes - old(fs.nodes))
    ensures rc == Ok ==> node != null && node in fs.nodes && fs.Balanced(before, plus + multiset{node})
    ensures rc != Ok ==> node == null && fs.Balanced(before, plus)
    ensures Grows(old(fs.Known()), fs.Known())
    ensures rc == Ok ==> Step(fs.Known(), fs.upcase, parent, comp, node)
    ensures rc != Ok ==> Stuck(fs.Known(), fs.upcase, parent, comp, rc)
  {
    hide ToUtf16, FileSystem.Balanced, FirstNamed, NoneNamed, Components, FileSystem.Known, Grows;
    node := null;
    GrowsNot(fs.Known());
    fs.KnownIs(parent);
    var name := ToUtf16(comp, NAME_MAX);
    if !name.Done? {
      return CodeOf(name), null;
    }
    var it;
    rc, it := fs.Opendir(parent, before, plus);
    if rc != Ok {
      return;
    }
    ghost var held := plus + multiset{parent};
    node := Search(fs, it, name.output, before, held);
    if node != null {
      fs.Closedir(it, before, held + multiset{node});
      assert held + multiset{node} - multiset{parent} == plus + multiset{node};
      return Ok, node;
    }
    fs.Closedir(it, before, held);
    assert held - multiset{parent} == plus;
    rc := NoEntry;
  }

  /** The loop of that: through the children until one has the name, giving back each reference but the last. */
  method Search(fs: FileSystem, it: Iterator, name: seq<unit>, ghost before: map<Node, int>, ghost held: multiset<Node>)
    returns (node: Node?)
    requires fs.Valid() && it.parent in fs.nodes && it.at == -1 && fs.Balanced(before, held)
    modifies it, (set k | k in it.parent.kids)`references
    ensures fs.Valid() && fs.Known() == old(fs.Known())
    ensures node != null ==> node in fs.nodes && fs.Balanced(before, held + multiset{node})
                             && FirstNamed(fs.upcase, it.parent.kids, name, node)
    ensures node == null ==> fs.Balanced(before, held) && NoneNamed(fs.upcase, it.parent.kids, name)
  {
    hide Name, SameButCase, FileSystem.Balanced;
    while true
      invariant fs.Valid() && -1 <= it.at < |it.parent.kids| && fs.Balanced(before, held)
      invariant fs.Known() == old(fs.Known())
      invariant forall j :: 0 <= j <= it.at ==> !SameButCase(fs.upcase, Name(name), Name(it.parent.kids[j].name))
      decreases |it.parent.kids| - it.at
    {
      node := fs.Readdir(it, before, held);
      if node == null {
        return;
      }
      var order := CompareName(fs.upcase, name, node.name);
      if order == 0 {
        return;
      }
      fs.PutNode(node, before, held + multiset{node});
      assert held + multiset{node} - multiset{node} == held;
    }
  }

  /** One step down a path: the reference to the parent is given back, and if the name is found there is one to the
      node that has it. The components in `done` have led to the parent. */
  method Descend(fs: FileSystem, parent: Node, comp: seq<byte>, ghost before: map<Node, int>,
                 ghost plus: multiset<Node>, ghost first: Listings, ghost done: seq<seq<byte>>,
                 ghost rest: seq<seq<byte>>)
    returns (rc: Code, node: Node?)
    requires fs.Valid() && parent in fs.nodes && fs.Balanced(before, plus + multiset{parent})
    requires Grows(first, fs.Known()) && Leads(fs.Known(), fs.upcase, fs.root, done, parent) && comp != [DOT]
    modifies fs, fs.nodes
    ensures fs.Valid() && old(fs.nodes) <= fs.nodes && fresh(fs.nodes - old(fs.nodes))
    ensures rc == Ok ==> node != null && node in fs.nodes && fs.Balanced(before, plus + multiset{node})
    ensures rc != Ok ==> fs.Balanced(before, plus)
    ensures Grows(first, fs.Known())
    ensures rc == Ok ==> Leads(fs.Known(), fs.upcase, fs.root, done + [comp], node)
    ensures rc != Ok ==> Stops(fs.Known(), fs.nodes, fs.upcase, fs.root, done + [comp] + rest, rc)
  {
    hide FileSystem.Balanced, Step, Stuck, FileSystem.Known, FileSystem.Valid, Leads, Stops, Grows;
    fs.RootIn();
    ghost var known := fs.Known();
    rc, node := LookupName(fs, parent, comp, before, plus + multiset{parent});
    LeadsStill(known, fs.Known(), fs.upcase, fs.root, done, parent);
    GrowsOn(first, known, fs.Known());
    if rc != Ok {
      StopsHere(fs.Known(), fs.nodes, fs.upcase, fs.root, done, parent, comp, rest, rc);
      fs.PutNode(parent, before, plus + multiset{parent});
      assert plus + multiset{parent} - multiset{parent} == plus;
      return;
    }
    LeadsOn(fs.Known(), fs.upcase, fs.root, done, parent, comp, node);
    fs.PutNode(parent, before, plus + multiset{parent} + multiset{node});
    assert plus + multiset{parent} + multiset{node} - multiset{parent} == plus + multiset{node};
  }

  /** One component of a path: "." stays where it is. */
  method Follow(fs: FileSystem, parent: Node, comp: seq<byte>, ghost before: map<Node, int>,
                ghost plus: multiset<Node>, ghost first: Listings, ghost done: seq<seq<byte>>,
                ghost rest: seq<seq<byte>>)
    returns (rc: Code, node: Node?)
    requires fs.Valid() && parent in fs.nodes && fs.Balanced(before, plus + multiset{parent})
    requires Grows(first, fs.Known()) && Leads(fs.Known(), fs.upcase, fs.root, done, parent)
    modifies fs, fs.nodes
    ensures fs.Valid() && old(fs.nodes) <= fs.nodes && fresh(fs.nodes - old(fs.nodes))
    ensures rc == Ok ==> node != null && node in fs.nodes && fs.Balanced(before, plus + multiset{node})
    ensures rc != Ok ==> fs.Balanced(before, plus)
    ensures Grows(first, fs.Known())
    ensures rc == Ok ==> Leads(fs.Known(), fs.upcase, fs.root, done + [comp], node)
    ensures rc != Ok ==> Stops(fs.Known(), fs.nodes, fs.upcase, fs.root, done + [comp] + rest, rc)
  {
    hide FileSystem.Balanced, FileSystem.Known, FileSystem.Valid, Leads, Stops, Grows;
    fs.RootIn();
    if comp == [DOT] {
      LeadsOn(fs.Known(), fs.upcase, fs.root, done, parent, comp, parent);
      return Ok, parent;
    }
    rc, node := Descend(fs, parent, comp, before, plus, first, done, rest);
  }

  /** Follows a path from the root. On success the node it leads to has one reference more; on failure none has, and
      some component leads nowhere. */
  method Lookup(fs: FileSystem, path: seq<byte>, ghost before: map<Node, int>, ghost plus: multiset<Node>)
    returns (rc: Code, node: Node?)
    requires fs.Valid() && fs.Balanced(before, plus)
    modifies fs, fs.nodes
    ensures fs.Valid() && old(fs.nodes) <= fs.nodes && fresh(fs.nodes - old(fs.nodes))
    ensures rc == Ok ==> node != null && node in fs.nodes && fs.Balanced(before, plus + multiset{node})
    ensures rc != Ok ==> fs.Balanced(before, plus)
    ensures Grows(old(fs.Known()), fs.Known())
    ensures rc == Ok ==> Leads(fs.Known(), fs.upcase, fs.root, Components(path), node)
    ensures rc != Ok ==> Stops(fs.Known(), fs.nodes, fs.upcase, fs.root, Components(path), rc)
  {
    hide FileSystem.Balanced, Components, Step, Stuck, FileSystem.Known, FileSystem.Valid, Leads, Stops, Grows;
    fs.RootIn();
    fs.GetNode(fs.root, before, plus);
    var parent: Node := fs.root;
    node := parent;
    var p: nat, n: nat := GetComp(path, 0);
    ghost var done: seq<seq<byte>> := [];
    LeadsNowhere(fs.Known(), fs.upcase, fs.root);
    GrowsNot(fs.Known());
    WholePath(path);
    while n != 0
      invariant fs.Valid() && old(fs.nodes) <= fs.nodes && fresh(fs.nodes - old(fs.nodes))
      invariant p + n <= |path| && parent in fs.nodes && node == parent
      invariant fs.Balanced(before, plus + multiset{parent})
      invariant Grows(old(fs.Known()), fs.Known())
      invariant Leads(fs.Known(), fs.upcase, fs.root, done, parent)
      invariant Components(path) == done + Ahead(path, p, n)
      decreases |path| - p, n
    {
      var comp := path[p..p + n];
      ghost var rest := Components(path[p + n..]);
      assert Components(path) == done + [comp] + rest;
      rc, node := Follow(fs, parent, comp, before, plus, old(fs.Known()), done, rest);
      if rc != Ok {
        return;
      }
      parent := node;
      done := done + [comp];
      p, n := GetComp(path, p + n);
    }
    assert done + [] == done;
    rc := Ok;
  }

  /** The components not yet followed, when the next one is at `p`; none if it has no length. */
  function Ahead(path: seq<byte>, p: nat, n: nat): seq<seq<byte>>
    requires p + n <= |path|
  {
    if n == 0 then [] else [path[p..p + n]] + Components(path[p + n..])
  }

  lemma LeadsNowhere(k: Listings, upcase: seq<unit>, root: Node)
    requires Table(upcase)
    ensures Leads(k, upcase, root, [], root)
  {
  }

  lemma WholePath(path: seq<byte>)
    ensures path[0..] == path
  {
  }

  datatype Split = Split(rc: Code, parent: Node?, node: Node?, name: seq<unit>)

  /** The last component of a path is there, and all before it lead to a directory. */
  ghost predicate LeadsUpTo(k: Listings, upcase: seq<unit>, root: Node, comps: seq<seq<byte>>, parent: Node)
    requires Table(upcase)
  {
    comps != [] && Leads(k, upcase, root, comps[..|comps| - 1], parent)
  }

  lemma UpToLast(k: Listings, upcase: seq<unit>, root: Node, done: seq<seq<byte>>, c: seq<byte>, parent: Node)
    requires Table(upcase) && Leads(k, upcase, root, done, parent)
    ensures LeadsUpTo(k, upcase, root, done + [c], parent)
  {
    assert (done + [c])[..|done|] == done;
  }

  /** Follows a path up to its last component. On success the directory this leads to has one reference more, and so
      has the node of that name if there is one; on failure none has. A path whose last component is "." or that has
      none ends the program, with the reference to where it leads still held; this is answered with that node. */
  method SplitPath(fs: FileSystem, path: seq<byte>, ghost before: map<Node, int>, ghost plus: multiset<Node>)
    returns (s: Split)
    requires fs.Valid() && fs.Balanced(before, plus)
    modifies fs, fs.nodes
    ensures fs.Valid() && old(fs.nodes) <= fs.nodes && fresh(fs.nodes - old(fs.nodes))
    ensures s.rc == Ok ==> s.parent != null && s.parent in fs.nodes && (s.node != null ==> s.node in fs.nodes)
    ensures s.rc == Ok ==> fs.Balanced(before, plus + multiset{s.parent}
                                               + if s.node == null then multiset{} else multiset{s.node})
    ensures s.rc != Ok && Proper(path) ==> fs.Balanced(before, plus)
    ensures Grows(old(fs.Known()), fs.Known())
    ensures s.rc == Ok ==> Proper(path) && LeadsUpTo(fs.Known(), fs.upcase, fs.root, Components(path), s.parent)
                           && LastFound(fs.Known(), fs.upcase, s, Last(Components(path)))
    ensures s.rc != Ok && Proper(path) ==> LastRefused(Last(Components(path)), s.rc)
                                           || Stops(fs.Known(), fs.nodes, fs.upcase, fs.root, Components(path), s.rc)
    ensures !Proper(path) ==>
              && s.rc != Ok
              && if s.parent == null then
                   && fs.Balanced(before, plus)
                   && Stops(fs.Known(), fs.nodes, fs.upcase, fs.root, Components(path), s.rc)
                 else
                   && s.rc == Aborted && s.parent in fs.nodes && fs.Balanced(before, plus + multiset{s.parent})
                   && Leads(fs.Known(), fs.upcase, fs.root, Components(path), s.parent)
  {
    hide FileSystem.Balanced, Components, Step, Stuck, FileSystem.Known, FileSystem.Valid, Leads, Stops, LeadsUpTo,
         LastFound, LastRefused, Grows, Ahead, Proper;
    fs.RootIn();
    fs.GetNode(fs.root, before, plus);
    var parent: Node := fs.root;
    WholePath(path);
    var p: nat, n: nat := GetComp(path, 0);
    ghost var done: seq<seq<byte>> := [];
    LeadsNowhere(fs.Known(), fs.upcase, fs.root);
    GrowsNot(fs.Known());
    while n != 0
      invariant fs.Valid() && old(fs.nodes) <= fs.nodes && fresh(fs.nodes - old(fs.nodes))
      invariant p + n <= |path| && parent in fs.nodes
      invariant fs.Balanced(before, plus + multiset{parent})
      invariant Grows(old(fs.Known()), fs.Known())
      invariant Leads(fs.Known(), fs.upcase, fs.root, done, parent)
      invariant Components(path) == done + Ahead(path, p, n)
      invariant n == 0 ==> done == [] || Last(done) == [DOT]
      decreases |path| - p, n
    {
      var comp := path[p..p + n];
      ghost var rest := Components(path[p + n..]);
      var q: nat, more: nat := GetComp(path, p + n);
      OneAhead(path, done, p, n, q, more);
      if comp != [DOT] && more == 0 {
        s := SplitLast(fs, parent, comp, before, plus, old(fs.Known()), done);
        return;
      }
      var rc, node := Follow(fs, parent, comp, before, plus, old(fs.Known()), done, rest);
      if rc != Ok {
        return Split(rc, null, null, []);
      }
      parent := node;
      done := done + [comp];
      p, n := q, more;
    }
    NoneAhead(path, done, p);
    return Split(Aborted, parent, null, []);
  }

  /** A component taken from what is ahead. */
  lemma OneAhead(path: seq<byte>, done: seq<seq<byte>>, p: nat, n: nat, q: nat, more: nat)
    requires n > 0 && p + n <= |path| && q + more <= |path| && Components(path) == done + Ahead(path, p, n)
    requires Components(path[p + n..]) == Ahead(path, q, more)
    ensures var comp := path[p..p + n];
            && Components(path) == done + [comp] + Components(path[p + n..]) == done + [comp] + Ahead(path, q, more)
            && (more == 0 ==> Components(path) == done + [comp] && Last(Components(path)) == comp)
            && (more == 0 && comp != [DOT] ==> Proper(path))
            && Last(done + [comp]) == comp
  {
    hide Components;
  }

  lemma NoneAhead(path: seq<byte>, done: seq<seq<byte>>, p: nat)
    requires p <= |path| && Components(path) == done + Ahead(path, p, 0) && (done == [] || Last(done) == [DOT])
    ensures Components(path) == done && !Proper(path)
  {
    hide Components;
    assert done + [] == done;
  }

  function Last(cs: seq<seq<byte>>): seq<byte>
    requires cs != []
  {
    cs[|cs| - 1]
  }

  /** What is said of the last component: its name in UTF-16 without forbidden characters, and the first child that
      has it, if any. */
  ghost predicate LastFound(k: Listings, upcase: seq<unit>, s: Split, comp: seq<byte>)
    requires Table(upcase)
  {
    && s.parent != null && s.parent in k
    && ToUtf16(comp, NAME_MAX) == Done(s.name) && (forall i :: 0 <= i < |comp| ==> !Forbidden(comp[i]))
    && if s.node == null then NoneNamed(upcase, k[s.parent], s.name)
       else FirstNamed(upcase, k[s.parent], s.name, s.node)
  }

  /** The last component is no possible name. */
  predicate LastRefused(comp: seq<byte>, rc: Code) {
    if exists i :: 0 <= i < |comp| && Forbidden(comp[i]) then rc == NoEntry
    else var name := ToUtf16(comp, NAME_MAX); !name.Done? && rc == CodeOf(name)
  }

  /** What is done with the last component. */
  method SplitLast(fs: FileSystem, parent: Node, comp: seq<byte>, ghost before: map<Node, int>,
                   ghost plus: multiset<Node>, ghost first: Listings, ghost done: seq<seq<byte>>)
    returns (s: Split)
    requires fs.Valid() && parent in fs.nodes && fs.Balanced(before, plus + multiset{parent})
    requires Grows(first, fs.Known()) && Leads(fs.Known(), fs.upcase, fs.root, done, parent) && comp != [DOT]
    modifies fs, fs.nodes
    ensures fs.Valid() && old(fs.nodes) <= fs.nodes && fresh(fs.nodes - old(fs.nodes))
    ensures s.rc == Ok ==> s.parent == parent && (s.node != null ==> s.node in fs.nodes)
    ensures s.rc == Ok ==> fs.Balanced(before, plus + multiset{parent}
                                               + if s.node == null then multiset{} else multiset{s.node})
    ensures s.rc != Ok ==> fs.Balanced(before, plus)
    ensures Grows(first, fs.Known())
    ensures s.rc == Ok ==> LeadsUpTo(fs.Known(), fs.upcase, fs.root, done + [comp], parent)
                           && LastFound(fs.Known(), fs.upcase, s, comp)
    ensures s.rc != Ok ==> LastRefused(comp, s.rc)
                           || Stops(fs.Known(), fs.nodes, fs.upcase, fs.root, done + [comp], s.rc)
  {
    hide FileSystem.Balanced, FileSystem.Known, FirstNamed, NoneNamed, ToUtf16, FileSystem.Valid, Leads, Stops, Grows,
         LeadsUpTo;
    fs.RootIn();
    assert plus + multiset{parent} - multiset{parent} == plus;
    assert plus + multiset{parent} + multiset{} == plus + multiset{parent};
    var allowed := IsAllowed(comp);
    if !allowed {
      fs.PutNode(parent, before, plus + multiset{parent});
      return Split(NoEntry, null, null, []);
    }
    var name := ToUtf16(comp, NAME_MAX);
    if !name.Done? {
      fs.PutNode(parent, before, plus + multiset{parent});
      return Split(CodeOf(name), null, null, []);
    }
    ghost var known := fs.Known();
    var rc, node := LookupName(fs, parent, comp, before, plus + multiset{parent});
    LeadsStill(known, fs.Known(), fs.upcase, fs.root, done, parent);
    GrowsOn(first, known, fs.Known());
    UpToLast(fs.Known(), fs.upcase, fs.root, done, comp, parent);
    if rc != Ok && rc != NoEntry {
      StopsHere(fs.Known(), fs.nodes, fs.upcase, fs.root, done, parent, comp, [], rc);
      assert done + [comp] + [] == done + [comp];
      fs.PutNode(parent, before, plus + multiset{parent});
      return Split(rc, null, null, []);
    }
    return Split(Ok, parent, node, name.output);
  }
}
