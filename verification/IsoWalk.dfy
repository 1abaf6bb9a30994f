/** Walking the tree of an untrusted image into an index (internal/isofs/isofs.go:82-238,
    285-314). What the image says about itself is an arbitrary graph, cycles included. */
module IsoWalk {
  import opened Arith

  const MAX_ENTRIES := 100000
  const MAX_DEPTH := 32
  const MAX_METADATA := 67108864
  const MAX_EXTENTS := 1048576
  const MAX_NAME := 255

  /** ECMA-167 4/14.6.6. */
  const TYPE_DIRECTORY := 4
  const TYPE_FILE := 5

  /** Partition and block of a file entry. */
  type Ref = (nat, nat)

  type Uint32 = n: int | 0 <= n < 0x1_0000_0000

  type Uint64 = n: int | 0 <= n < 2 * TWO_63

  /** A line of a directory listing; text says whether the name is valid UTF-8. */
  datatype Fid = Fid(name: string, text: bool, ref: Ref, isDir: bool)

  /** chained: for each allocation descriptor whether it points at further descriptors. */
  datatype FileEntry = FileEntry(
    hasTag: bool, fileType: nat, attributes: Uint32, descriptors: Uint32, chained: seq<bool>, length: Uint64)

  /** What reading the image yields: entries, listings, and whether a file's reader gives
      exactly the bytes its entry claims. */
  datatype Volume = Volume(
    entry: Ref -> Option<FileEntry>,
    listing: Ref -> Option<seq<Fid>>,
    readable: Ref -> bool)

  /** How names compare on FAT32, and which ones Windows reserves. */
  datatype Names = Names(fold: string -> string, isDevice: string -> bool)

  type Path = seq<string>

  datatype Node = Node(ref: Ref, dir: bool)

  // ---- names

  function Utf16Length(name: string): nat {
    if name == [] then 0 else Utf16Length(name[..|name| - 1]) + if name[|name| - 1] as int >= 0x10000 then 2 else 1
  }

  predicate BadChar(c: char) {
    c as int < 0x20 || c as int == 0x7F || c in "/\\<>:\"|?*"
  }

  /** checkName, on valid text. */
  predicate PlainName(names: Names, name: string) {
    && name != "" && name != "." && name != ".."
    && Utf16Length(name) <= MAX_NAME
    && (forall c | c in name :: !BadChar(c))
    && name[|name| - 1] != '.' && name[|name| - 1] != ' '
    && !names.isDevice(name)
  }

  predicate NameOk(names: Names, f: Fid) {
    f.text && PlainName(names, f.name)
  }

  /** No name that is accepted can be mistaken for a path. */
  lemma NamesArePlain(names: Names, name: string)
    requires PlainName(names, name)
    ensures '/' !in name && '\\' !in name && name != ".." && name != "."
  {
    assert BadChar('/') && BadChar('\\');
  }

  /** A UTF-16 unit for each character, and two past the basic plane. */
  lemma {:induction false} UnitsAddUp(name: string, c: char)
    ensures Utf16Length("") == 0
    ensures Utf16Length(name + [c]) == Utf16Length(name) + if c as int > 0xFFFF then 2 else 1
  {
    assert (name + [c])[..|name|] == name;
  }

  // ---- the index

  function Parent(p: Path): Path
    requires p != []
  {
    p[..|p| - 1]
  }

  function Last(p: Path): string
    requires p != []
  {
    p[|p| - 1]
  }

  predicate Under(p: Path, d: Path) {
    |d| <= |p| && p[..|d|] == d
  }

  /** A tree whose nodes stand for different file entries. */
  ghost predicate Tree(nodes: map<Path, Node>) {
    && [] in nodes && nodes[[]].dir
    && (forall p | p in nodes && p != [] :: Parent(p) in nodes && nodes[Parent(p)].dir)
    && (forall p | p in nodes :: |p| <= MAX_DEPTH)
    && (forall p, q | p in nodes && q in nodes && nodes[p].ref == nodes[q].ref :: p == q)
  }

  /** Siblings have names that FAT32 tells apart. */
  ghost predicate SiblingsDiffer(nodes: map<Path, Node>, fold: string -> string) {
    forall p, q | p in nodes && q in nodes && p != q && p != [] && q != [] && Parent(p) == Parent(q) ::
      fold(Last(p)) != fold(Last(q))
  }

  /** The children of d are exactly the lines of its listing, each with a name of its own. */
  ghost predicate ChildrenAre(nodes: map<Path, Node>, d: Path, list: seq<Fid>) {
    && (forall f | f in list :: f.text)
    && (forall i, j | 0 <= i < j < |list| :: list[i].name != list[j].name)
    && (forall f | f in list :: d + [f.name] in nodes && nodes[d + [f.name]] == Node(f.ref, f.isDir))
    && (forall p | p in nodes && p != [] && Parent(p) == d :: exists f :: f in list && f.name == Last(p))
  }

  ghost predicate Listed(v: Volume, nodes: map<Path, Node>, d: Path)
    requires d in nodes
  {
    v.listing(nodes[d].ref).Some? && ChildrenAre(nodes, d, v.listing(nodes[d].ref).value)
  }

  /** Every directory at or below d is in the index with its whole listing. */
  ghost predicate CompleteBelow(v: Volume, nodes: map<Path, Node>, d: Path) {
    forall p | p in nodes && Under(p, d) && nodes[p].dir :: Listed(v, nodes, p)
  }

  ghost predicate Childless(nodes: map<Path, Node>, d: Path) {
    forall p | p in nodes && Under(p, d) :: p == d
  }

  /** What a node's own entry must look like. */
  predicate EntryOk(v: Volume, n: Node) {
    var fe := v.entry(n.ref);
    && fe.Some? && fe.value.hasTag
    && (fe.value.fileType == TYPE_DIRECTORY || fe.value.fileType == TYPE_FILE)
    && (n.dir <==> fe.value.fileType == TYPE_DIRECTORY)
    && true !in fe.value.chained
    && (n.dir || v.readable(n.ref))
  }

  ghost predicate EntriesOk(v: Volume, nodes: map<Path, Node>) {
    forall p | p in nodes && p != [] :: EntryOk(v, nodes[p])
  }

  /** An index of the whole image that the copy step can use. */
  ghost predicate IsIndex(v: Volume, names: Names, root: Ref, nodes: map<Path, Node>) {
    && Tree(nodes) && SiblingsDiffer(nodes, names.fold) && PlainNames(nodes, names)
    && nodes[[]] == Node(root, true) && EntryOk(v, nodes[[]]) && EntriesOk(v, nodes)
    && CompleteBelow(v, nodes, [])
  }

  /** A name is taken exactly if FAT32 stores it as it is: not empty or a path element, no
      longer than 255 units, without control characters and those that separate paths or are
      reserved, not ending in a dot or a space, and not a device. */
  lemma PlainNameIs(names: Names, name: string)
    ensures PlainName(names, name) <==>
            && name != "" && name != "." && name != ".." && Utf16Length(name) <= 255 && !names.isDevice(name)
            && name[|name| - 1] != '.' && name[|name| - 1] != ' '
            && forall c | c in name ::
              && c as int >= 32 && c as int != 127
              && c != '/' && c != '\\' && c != '<' && c != '>' && c != ':' && c != '"' && c != '|' && c != '?'
              && c != '*'
  {
    forall c: char
      ensures BadChar(c) <==>
              c as int < 32 || c as int == 127 ||
              c == '/' || c == '\\' || c == '<' || c == '>' || c == ':' || c == '"' || c == '|' || c == '?' || c == '*'
    {
      BadCharIs(c);
    }
    hide BadChar, Utf16Length;
  }

  lemma BadCharIs(c: char)
    ensures BadChar(c) <==>
            c as int < 32 || c as int == 127 ||
            c == '/' || c == '\\' || c == '<' || c == '>' || c == ':' || c == '"' || c == '|' || c == '?' || c == '*'
  {
  }

  /** An entry can be in the index exactly if it is a directory (type 4), or a readable file
      (type 5), as its line says, without chained descriptors. */
  lemma EntryIs(v: Volume, n: Node)
    ensures EntryOk(v, n) <==>
            && v.entry(n.ref).Some? && v.entry(n.ref).value.hasTag
            && v.entry(n.ref).value.fileType == (if n.dir then 4 else 5)
            && true !in v.entry(n.ref).value.chained
            && (n.dir || v.readable(n.ref))
  {
  }

  /** An index, spelled out: a tree at most 32 deep below the root directory, no entry twice,
      siblings that differ after folding, and every directory with the lines of its listing. */
  lemma IndexIs(v: Volume, names: Names, root: Ref, nodes: map<Path, Node>)
    ensures IsIndex(v, names, root, nodes) <==>
            && [] in nodes && nodes[[]] == Node(root, true)
            && (forall p | p in nodes && p != [] :: p[..|p| - 1] in nodes && nodes[p[..|p| - 1]].dir)
            && (forall p | p in nodes :: |p| <= 32)
            && (forall p, q | p in nodes && q in nodes && nodes[p].ref == nodes[q].ref :: p == q)
            && (forall p, q | p in nodes && q in nodes && p != q && p != [] && q != [] ::
                  p[..|p| - 1] == q[..|q| - 1] ==>
                  names.fold(p[|p| - 1]) != names.fold(q[|q| - 1]))
            && (forall p | p in nodes && p != [] :: PlainName(names, p[|p| - 1]))
            && (forall p | p in nodes :: EntryOk(v, nodes[p]))
            && (forall d | d in nodes && nodes[d].dir ::
                  v.listing(nodes[d].ref).Some? && ChildrenAre(nodes, d, v.listing(nodes[d].ref).value))
  {
    hide Tree, SiblingsDiffer, PlainNames, EntriesOk, CompleteBelow, PlainName, EntryOk, ChildrenAre;
    TreeIs(nodes);
    SiblingsAre(nodes, names.fold);
    NamesAre(nodes, names);
    CompleteIs(v, nodes);
    if [] in nodes {
      EntriesAre(v, nodes);
    }
  }

  lemma TreeIs(nodes: map<Path, Node>)
    ensures Tree(nodes) <==>
            && [] in nodes && nodes[[]].dir
            && (forall p | p in nodes && p != [] :: p[..|p| - 1] in nodes && nodes[p[..|p| - 1]].dir)
            && (forall p | p in nodes :: |p| <= 32)
            && (forall p, q | p in nodes && q in nodes && nodes[p].ref == nodes[q].ref :: p == q)
  {
  }

  lemma SiblingsAre(nodes: map<Path, Node>, fold: string -> string)
    ensures SiblingsDiffer(nodes, fold) <==>
            (forall p, q | p in nodes && q in nodes && p != q && p != [] && q != [] ::
               p[..|p| - 1] == q[..|q| - 1] ==> fold(p[|p| - 1]) != fold(q[|q| - 1]))
  {
  }

  lemma NamesAre(nodes: map<Path, Node>, names: Names)
    ensures PlainNames(nodes, names) <==> (forall p | p in nodes && p != [] :: PlainName(names, p[|p| - 1]))
  {
    hide PlainName;
  }

  lemma EntriesAre(v: Volume, nodes: map<Path, Node>)
    requires [] in nodes
    ensures EntryOk(v, nodes[[]]) && EntriesOk(v, nodes) <==> (forall p | p in nodes :: EntryOk(v, nodes[p]))
  {
    hide EntryOk;
  }

  lemma CompleteIs(v: Volume, nodes: map<Path, Node>)
    ensures CompleteBelow(v, nodes, []) <==>
            (forall d | d in nodes && nodes[d].dir ::
               v.listing(nodes[d].ref).Some? && ChildrenAre(nodes, d, v.listing(nodes[d].ref).value))
  {
    hide ChildrenAre;
    forall p | p in nodes
      ensures Under(p, [])
    {
      assert p[..0] == [];
    }
  }

  /** What the children of a directory are. */
  lemma ChildrenAreSpelled(nodes: map<Path, Node>, d: Path, list: seq<Fid>)
    requires ChildrenAre(nodes, d, list)
    ensures forall f | f in list :: f.text && d + [f.name] in nodes && nodes[d + [f.name]] == Node(f.ref, f.isDir)
    ensures forall i, j | 0 <= i < j < |list| :: list[i].name != list[j].name
    ensures forall p | p in nodes && p != [] && p[..|p| - 1] == d :: exists f :: f in list && p == d + [f.name]
  {
    forall p | p in nodes && p != [] && p[..|p| - 1] == d
      ensures exists f :: f in list && p == d + [f.name]
    {
      var f :| f in list && f.name == Last(p);
      assert p == d + [f.name];
    }
  }

  // ---- the budgets

  ghost function Pick(s: set<Ref>): (r: Ref)
    requires s != {}
    ensures r in s
  {
    var r :| r in s;
    r
  }

  ghost function Total(s: set<Ref>, cost: Ref -> nat): nat {
    if s == {} then 0 else cost(Pick(s)) + Total(s - {Pick(s)}, cost)
  }

  lemma {:induction false} TotalAdd(s: set<Ref>, cost: Ref -> nat, r: Ref)
    requires r !in s
    ensures Total(s + {r}, cost) == Total(s, cost) + cost(r)
    decreases |s|
  {
    var q := Pick(s + {r});
    if q == r {
      assert s + {r} - {q} == s;
    } else {
      var rest := s - {q};
      TotalAdd(rest, cost, r);
      assert s + {r} - {q} == rest + {r};
      TotalAdd(rest, cost, q);
      assert rest + {q} == s;
    }
  }

  lemma {:induction false} TotalGrows(s: set<Ref>, t: set<Ref>, cost: Ref -> nat)
    requires s <= t
    ensures Total(s, cost) <= Total(t, cost)
    decreases |t - s|
  {
    if s == t {
    } else {
      var r :| r in t && r !in s;
      TotalAdd(s, cost, r);
      assert t - (s + {r}) < t - s;
      TotalGrows(s + {r}, t, cost);
    }
  }

  /** The variable parts of a file entry. */
  function TailsOf(e: Option<FileEntry>): nat {
    if e.Some? then e.value.attributes + e.value.descriptors else 0
  }

  /** What a directory says its listing takes. */
  function ClaimOf(e: Option<FileEntry>): nat {
    if e.Some? && e.value.fileType == TYPE_DIRECTORY then e.value.length else 0
  }

  /** What a file entry takes of the metadata budget. */
  function MetadataOf(e: Option<FileEntry>): nat {
    TailsOf(e) + ClaimOf(e)
  }

  function MetadataCost(v: Volume): Ref -> nat {
    r => MetadataOf(v.entry(r))
  }

  function ExtentsCost(v: Volume): Ref -> nat {
    r => if v.entry(r).Some? then |v.entry(r).value.chained| else 0
  }

  ghost function Refs(nodes: map<Path, Node>): set<Ref> {
    set p | p in nodes :: nodes[p].ref
  }

  /** An index that fits the budgets. */
  ghost predicate Within(v: Volume, nodes: map<Path, Node>) {
    && |nodes| <= 1 + MAX_ENTRIES
    && Total(Refs(nodes), MetadataCost(v)) <= MAX_METADATA
    && Total(Refs(nodes), ExtentsCost(v)) <= MAX_EXTENTS
  }

  /** What counts against the budgets: for every entry its attributes and its descriptors, for
      a directory also the length it claims, and the number of its descriptors. */
  lemma WithinIs(v: Volume, nodes: map<Path, Node>, r: Ref)
    ensures Within(v, nodes) <==>
            && |nodes| <= 100001
            && Total(Refs(nodes), MetadataCost(v)) <= 67108864 && Total(Refs(nodes), ExtentsCost(v)) <= 1048576
    ensures v.entry(r).Some? ==>
      var fe := v.entry(r).value;
      && MetadataCost(v)(r) == fe.attributes + fe.descriptors + (if fe.fileType == 4 then fe.length else 0)
      && ExtentsCost(v)(r) == |fe.chained|
  {
    hide Total, Refs;
  }

  /** The test after adding a directory's length, in 64 bits, is right if and only if the
      true sum fits them. */
  lemma DirectoryTest(metadata: int, length: Uint64)
    requires 0 <= metadata <= MAX_METADATA
    ensures (Wrap64(metadata + length) <= MAX_METADATA <==> metadata + length <= MAX_METADATA) <==>
            metadata + length < TWO_63
  {
    if metadata + length >= TWO_63 {
      OnceWrapped(metadata + length);
    }
  }

  /** No directory claims so much that the sum can leave 64 bits. */
  ghost predicate Plausible(v: Volume, nodes: map<Path, Node>) {
    forall p | p in nodes :: ClaimOf(v.entry(nodes[p].ref)) < TWO_63 - MAX_METADATA
  }

  /** Whether both metadata tests, in 64 bits, let r in after the entries s. */
  ghost predicate Admits(v: Volume, s: set<Ref>, r: Ref) {
    var sum := Wrap64(Total(s, MetadataCost(v)));
    sum + TailsOf(v.entry(r)) <= MAX_METADATA && Wrap64(sum + MetadataCost(v)(r)) <= MAX_METADATA
  }

  /** An index that the budgets of the walk let pass, in whatever order it is met. */
  ghost predicate Passes(v: Volume, nodes: map<Path, Node>) {
    && |nodes| <= 1 + MAX_ENTRIES
    && Total(Refs(nodes), ExtentsCost(v)) <= MAX_EXTENTS
    && (forall s: set<Ref>, r: Ref {:trigger Admits(v, s, r)} | s <= Refs(nodes) && r in Refs(nodes) && r !in s ::
          Admits(v, s, r))
  }

  /** An index that fits the budgets passes. */
  lemma WithinPasses(v: Volume, nodes: map<Path, Node>)
    requires Within(v, nodes)
    ensures Passes(v, nodes)
  {
    hide Refs, Total;
    forall s: set<Ref>, r: Ref | s <= Refs(nodes) && r in Refs(nodes) && r !in s
      ensures Admits(v, s, r)
    {
      TotalAdd(s, MetadataCost(v), r);
      TotalGrows(s + {r}, Refs(nodes), MetadataCost(v));
    }
  }

  lemma WithinIsPlausible(v: Volume, nodes: map<Path, Node>)
    requires Within(v, nodes)
    ensures Plausible(v, nodes)
  {
    hide Total;
    forall p | p in nodes
      ensures ClaimOf(v.entry(nodes[p].ref)) < TWO_63 - MAX_METADATA
    {
      var r := nodes[p].ref;
      assert r in Refs(nodes);
      TotalAdd({}, MetadataCost(v), r);
      assert {} + {r} == {r};
      TotalGrows({r}, Refs(nodes), MetadataCost(v));
    }
  }

  /** A root directory that claims 2^63 bytes or more is let in: in 64 bits the sum is
      below the budget. */
  lemma HugeRootAdmitted(v: Volume, root: Ref)
    requires ClaimOf(v.entry(root)) >= TWO_63 && TailsOf(v.entry(root)) <= MAX_METADATA
    ensures Admits(v, {}, root) && MetadataCost(v)(root) > MAX_METADATA
  {
    hide Wrap64;
    assert Total({}, MetadataCost(v)) == 0;
    OnceWrapped(MetadataCost(v)(root));
  }

  /** So it passes, with an empty listing, although it exceeds the budget. */
  lemma HugeRootPasses(v: Volume, names: Names, root: Ref)
    requires EntryOk(v, Node(root, true)) && v.listing(root) == Some([])
    requires ClaimOf(v.entry(root)) >= TWO_63
    requires TailsOf(v.entry(root)) <= MAX_METADATA && ExtentsCost(v)(root) <= MAX_EXTENTS
    ensures var nodes := map[[] := Node(root, true)];
            IsIndex(v, names, root, nodes) && Passes(v, nodes) && !Within(v, nodes)
  {
    hide IsIndex, EntryOk, Admits, MetadataCost, ExtentsCost, Total;
    var nodes: map<Path, Node> := map[[] := Node(root, true)];
    EmptyRootHasIndex(v, names, root);
    RootCosts(v, root, Some(nodes));
    HugeRootAdmitted(v, root);
    forall s: set<Ref>, r: Ref | s <= Refs(nodes) && r in Refs(nodes) && r !in s
      ensures Admits(v, s, r)
    {
      assert r == root && s == {};
    }
  }

  ghost function Paths(d: Path, list: seq<Fid>): (s: set<Path>) {
    if list == [] then {} else Paths(d, list[..|list| - 1]) + {d + [list[|list| - 1].name]}
  }

  lemma {:induction false} PathIndex(d: Path, list: seq<Fid>, p: Path) returns (i: nat)
    requires p in Paths(d, list)
    ensures i < |list| && p == d + [list[i].name]
  {
    i := |list| - 1;
    if p != d + [list[i].name] {
      i := PathIndex(d, list[..i], p);
    }
  }

  lemma {:induction false} PathsCount(d: Path, list: seq<Fid>)
    requires forall i, j | 0 <= i < j < |list| :: list[i].name != list[j].name
    ensures |Paths(d, list)| == |list|
  {
    if list != [] {
      var n := |list| - 1;
      var last := d + [list[n].name];
      PathsCount(d, list[..n]);
      if last in Paths(d, list[..n]) {
        var i := PathIndex(d, list[..n], last);
        SnocSplit(d, list[n].name, d, list[i].name);
      }
    }
  }

  /** The lines of a directory not listed yet are further paths of the whole index. */
  lemma LinesCount(
    v: Volume, nodes: map<Path, Node>, whole: map<Path, Node>, d: Path, list: seq<Fid>)
    requires Sub(nodes, whole) && Childless(nodes, d) && ChildrenAre(whole, d, list)
    ensures |nodes| + |list| > 1 + MAX_ENTRIES ==> !Passes(v, whole)
  {
    hide Paths, Total, Refs, Under;
    PathsCount(d, list);
    var more := Paths(d, list);
    forall p | p in more
      ensures p in whole && p !in nodes
    {
      var i := PathIndex(d, list, p);
      ChildPath(d, list[i].name);
      assert list[i] in list;
    }
    assert nodes.Keys + more <= whole.Keys;
    SubsetSize(nodes.Keys + more, whole.Keys);
    assert |nodes.Keys| == |nodes| && |whole.Keys| == |whole|;
  }

  lemma {:induction false} SubsetSize<T>(a: set<T>, b: set<T>)
    requires a <= b
    ensures |a| <= |b|
  {
    assert b == a + (b - a);
  }

  predicate Sub(nodes: map<Path, Node>, whole: map<Path, Node>) {
    forall p | p in nodes :: p in whole && whole[p] == nodes[p]
  }

  /** more has what nodes has and otherwise only paths below d. */
  ghost predicate GrowsBelow(nodes: map<Path, Node>, more: map<Path, Node>, d: Path) {
    && (forall p | p in nodes :: p in more && more[p] == nodes[p])
    && (forall p | p in more && p !in nodes :: Under(p, d) && p != d)
  }

  function FoldPath(fold: string -> string, p: Path): Path {
    if p == [] then [] else FoldPath(fold, Parent(p)) + [fold(Last(p))]
  }

  lemma {:induction false} FoldPathLength(fold: string -> string, p: Path)
    ensures |FoldPath(fold, p)| == |p|
  {
    if p != [] {
      FoldPathLength(fold, Parent(p));
    }
  }

  lemma SnocSplit(a: Path, x: string, b: Path, y: string)
    requires a + [x] == b + [y]
    ensures a == b && x == y
  {
    assert a == (a + [x])[..|a + [x]| - 1] == (b + [y])[..|b + [y]| - 1] == b;
    assert x == (a + [x])[|a|] == (b + [y])[|b|] == y;
  }

  /** Any two distinct full paths still differ after folding every component. */
  lemma {:induction false} FoldedPathsDiffer(nodes: map<Path, Node>, fold: string -> string, p: Path, q: Path)
    requires Tree(nodes) && SiblingsDiffer(nodes, fold)
    requires p in nodes && q in nodes && p != q
    ensures FoldPath(fold, p) != FoldPath(fold, q)
    decreases |p|
  {
    FoldPathLength(fold, p);
    FoldPathLength(fold, q);
    if p != [] && q != [] && FoldPath(fold, p) == FoldPath(fold, q) {
      SnocSplit(FoldPath(fold, Parent(p)), fold(Last(p)), FoldPath(fold, Parent(q)), fold(Last(q)));
      hide FoldPath;
      assert Parent(p) in nodes && Parent(q) in nodes;
      if Parent(p) != Parent(q) {
        FoldedPathsDiffer(nodes, fold, Parent(p), Parent(q));
      }
    }
  }

  ghost predicate PlainNames(nodes: map<Path, Node>, names: Names) {
    forall p | p in nodes && p != [] :: PlainName(names, Last(p))
  }

  // ---- how the index grows

  lemma ChildPath(d: Path, name: string)
    ensures Parent(d + [name]) == d && Last(d + [name]) == name && Under(d + [name], d) && d + [name] != d
  {
  }

  lemma AddKeepsTree(nodes: map<Path, Node>, d: Path, name: string, n: Node, fold: string -> string)
    requires Tree(nodes) && SiblingsDiffer(nodes, fold)
    requires d in nodes && nodes[d].dir && |d| < MAX_DEPTH && d + [name] !in nodes
    requires forall p | p in nodes :: nodes[p].ref != n.ref
    requires forall p | p in nodes && p != [] && Parent(p) == d :: fold(Last(p)) != fold(name)
    ensures Tree(nodes[d + [name] := n]) && SiblingsDiffer(nodes[d + [name] := n], fold)
  {
    ChildPath(d, name);
  }

  lemma ParentUnder(p: Path, c: Path)
    requires Under(p, c) && p != c
    ensures p != [] && Under(Parent(p), c)
  {
    assert p[..|p|] == p;
    assert Parent(p)[..|c|] == p[..|c|];
  }

  /** What was complete before stays so when the index grows somewhere else. */
  lemma ListedStays(v: Volume, nodes: map<Path, Node>, more: map<Path, Node>, c: Path, d: Path)
    requires GrowsBelow(nodes, more, c) && d in nodes && Listed(v, nodes, d)
    requires !Under(d, c)
    ensures d in more && Listed(v, more, d)
  {
    hide Under;
    forall p | p in more && p != [] && Parent(p) == d
      ensures p in nodes
    {
      if Under(p, c) && p != c {
        ParentUnder(p, c);
      }
    }
  }

  lemma ApartBelow(p: Path, c: Path, e: Path)
    requires |c| == |e| && c != e
    ensures !(Under(p, c) && Under(p, e))
  {
  }

  lemma CompleteStays(v: Volume, nodes: map<Path, Node>, more: map<Path, Node>, c: Path, e: Path)
    requires GrowsBelow(nodes, more, c) && |c| == |e| && c != e && CompleteBelow(v, nodes, e)
    ensures CompleteBelow(v, more, e)
  {
    hide Under, Listed;
    forall p | p in more && Under(p, e) && more[p].dir
      ensures Listed(v, more, p)
    {
      ApartBelow(p, c, e);
      ListedStays(v, nodes, more, c, p);
    }
  }

  lemma ChildlessStays(nodes: map<Path, Node>, more: map<Path, Node>, c: Path, e: Path)
    requires GrowsBelow(nodes, more, c) && |c| == |e| && c != e && Childless(nodes, e)
    ensures Childless(more, e)
  {
    hide Under;
    forall p | p in more && Under(p, e)
      ensures p == e
    {
      ApartBelow(p, c, e);
    }
  }

  lemma GrowsTwice(a: map<Path, Node>, b: map<Path, Node>, c: map<Path, Node>, d: Path, e: Path)
    requires GrowsBelow(a, b, d) && GrowsBelow(b, c, e) && Under(e, d)
    ensures GrowsBelow(a, c, d)
  {
    forall p | p in c && p !in a
      ensures Under(p, d) && p != d
    {
      if p !in b {
        assert e[..|d|] == d && p[..|e|] == e;
        assert p[..|d|] == p[..|e|][..|d|];
      }
    }
  }

  /** A directory is complete once it is listed and its subdirectories are complete. */
  lemma CompleteFromChildren(v: Volume, nodes: map<Path, Node>, d: Path, list: seq<Fid>)
    requires Tree(nodes) && d in nodes && v.listing(nodes[d].ref) == Some(list) && ChildrenAre(nodes, d, list)
    requires forall f | f in list && f.isDir :: CompleteBelow(v, nodes, d + [f.name])
    ensures CompleteBelow(v, nodes, d)
  {
    hide ChildrenAre;
    forall p | p in nodes && Under(p, d) && nodes[p].dir
      ensures Listed(v, nodes, p)
    {
      if p != d {
        ChildOnTheWay(v, nodes, d, list, p);
      }
    }
  }

  lemma {:induction false} PrefixIn(nodes: map<Path, Node>, p: Path, n: nat)
    requires Tree(nodes) && p in nodes && n < |p|
    ensures p[..n] in nodes && nodes[p[..n]].dir
    decreases |p|
  {
    if n < |p| - 1 {
      PrefixIn(nodes, Parent(p), n);
      assert Parent(p)[..n] == p[..n];
    }
  }

  lemma ChildOnTheWay(v: Volume, nodes: map<Path, Node>, d: Path, list: seq<Fid>, p: Path)
    requires Tree(nodes) && d in nodes && ChildrenAre(nodes, d, list)
    requires forall f | f in list && f.isDir :: CompleteBelow(v, nodes, d + [f.name])
    requires p in nodes && Under(p, d) && p != d && nodes[p].dir
    ensures Listed(v, nodes, p)
  {
    hide Listed, Tree;
    assert p[..|p|] == p;
    var c := p[..|d| + 1];
    assert c == d + [p[|d|]] && Parent(c) == d && Under(p, c);
    if |c| < |p| {
      PrefixIn(nodes, p, |c|);
    } else {
      assert c == p;
    }
    var f :| f in list && f.name == Last(c);
    assert c == d + [f.name];
  }

  /** The lines seen so far are the children of d, all new and without children. */
  ghost predicate LinesAdded(before: map<Path, Node>, now: map<Path, Node>, d: Path, lines: seq<Fid>) {
    && GrowsBelow(before, now, d)
    && ChildrenAre(now, d, lines)
    && (forall p | p in now && p !in before :: p != [] && Parent(p) == d)
    && |now| == |before| + |lines|
  }

  lemma ChildrenStep(now: map<Path, Node>, d: Path, lines: seq<Fid>, f: Fid)
    requires ChildrenAre(now, d, lines) && d + [f.name] !in now && f.text
    ensures ChildrenAre(now[d + [f.name] := Node(f.ref, f.isDir)], d, lines + [f])
    ensures forall g | g in lines :: g.name != f.name
  {
    var more, grown := lines + [f], now[d + [f.name] := Node(f.ref, f.isDir)];
    forall i, j | 0 <= i < j < |more|
      ensures more[i].name != more[j].name
    {
      if j == |lines| {
        assert lines[i] in lines;
      }
    }
    assert f in more && forall g | g in lines :: g in more;
    forall g | g in more
      ensures d + [g.name] in grown && grown[d + [g.name]] == Node(g.ref, g.isDir)
    {
      if g in lines {
        assert d + [g.name] in now;
      }
    }
    forall p | p in grown && p != [] && Parent(p) == d
      ensures exists g :: g in more && g.name == Last(p)
    {
      if p in now {
        var g :| g in lines && g.name == Last(p);
        assert g in more;
      } else {
        assert p == d + [f.name];
      }
    }
  }

  lemma LinesAddedStep(before: map<Path, Node>, now: map<Path, Node>, d: Path, lines: seq<Fid>, f: Fid)
    requires LinesAdded(before, now, d, lines) && d + [f.name] !in now && f.text
    ensures LinesAdded(before, now[d + [f.name] := Node(f.ref, f.isDir)], d, lines + [f])
  {
    hide ChildrenAre, Under;
    ChildPath(d, f.name);
    ChildrenStep(now, d, lines, f);
  }

  lemma ParentIsAbove(p: Path)
    requires p != []
    ensures Under(p, Parent(p)) && p != Parent(p)
  {
  }

  lemma NoChildren(before: map<Path, Node>, d: Path)
    requires Childless(before, d)
    ensures LinesAdded(before, before, d, [])
    ensures forall p | p in before && p != [] :: Parent(p) != d
  {
    forall p | p in before && p != []
      ensures Parent(p) != d
    {
      ParentIsAbove(p);
    }
  }

  /** After the lines of d are in, its children have no children yet. */
  lemma NewChildrenChildless(before: map<Path, Node>, now: map<Path, Node>, d: Path, list: seq<Fid>, f: Fid)
    requires LinesAdded(before, now, d, list) && Childless(before, d) && f in list
    ensures Childless(now, d + [f.name])
  {
    ChildPath(d, f.name);
    var c := d + [f.name];
    forall p | p in now && Under(p, c)
      ensures p == c
    {
      assert Under(p, d) && p != d by {
        assert c[..|d|] == d && p[..|c|] == c;
        assert p[..|d|] == p[..|c|][..|d|];
      }
      assert p !in before;
      assert |p| == |c|;
      assert p[..|p|] == p;
    }
  }

  lemma AddKeepsNamesAndEntries(v: Volume, names: Names, nodes: map<Path, Node>, d: Path, name: string, n: Node)
    requires PlainNames(nodes, names) && EntriesOk(v, nodes) && PlainName(names, name) && EntryOk(v, n)
    ensures PlainNames(nodes[d + [name] := n], names) && EntriesOk(v, nodes[d + [name] := n])
  {
    hide PlainName, EntryOk;
    ChildPath(d, name);
  }

  lemma SeenStep(nodes: map<Path, Node>, more: map<Path, Node>, seen: set<Ref>, p: Path, n: Node)
    requires p !in nodes && n.ref in seen && more == nodes[p := n]
    requires forall q | q in nodes :: nodes[q].ref in seen
    requires forall r | r in seen && r != n.ref :: exists q :: q in nodes && nodes[q].ref == r
    ensures forall q | q in more :: more[q].ref in seen
    ensures forall r | r in seen :: exists q :: q in more && more[q].ref == r
  {
    forall r | r in seen
      ensures exists q :: q in more && more[q].ref == r
    {
      if r == n.ref {
        assert more[p].ref == r;
      } else {
        var q :| q in nodes && nodes[q].ref == r;
        assert more[q].ref == r;
      }
    }
  }

  /** The index so far, and the file entries met. */
  ghost predicate Good(v: Volume, names: Names, nodes: map<Path, Node>, seen: set<Ref>) {
    && Tree(nodes) && SiblingsDiffer(nodes, names.fold) && PlainNames(nodes, names) && EntriesOk(v, nodes)
    && (forall p | p in nodes :: nodes[p].ref in seen)
    && (forall r | r in seen :: exists p :: p in nodes && nodes[p].ref == r)
  }

  lemma AddKeepsGood(v: Volume, names: Names, nodes: map<Path, Node>, seen: set<Ref>, d: Path, f: Fid)
    requires Good(v, names, nodes, seen) && d in nodes && nodes[d].dir && |d| < MAX_DEPTH
    requires d + [f.name] !in nodes && f.ref !in seen
    requires PlainName(names, f.name) && EntryOk(v, Node(f.ref, f.isDir))
    requires forall p | p in nodes && p != [] && Parent(p) == d :: names.fold(Last(p)) != names.fold(f.name)
    ensures Good(v, names, nodes[d + [f.name] := Node(f.ref, f.isDir)], seen + {f.ref})
  {
    hide Tree, SiblingsDiffer, PlainNames, EntriesOk, PlainName, EntryOk;
    var p, n := d + [f.name], Node(f.ref, f.isDir);
    AddKeepsTree(nodes, d, f.name, n, names.fold);
    AddKeepsNamesAndEntries(v, names, nodes, d, f.name, n);
    SeenStep(nodes, nodes[p := n], seen + {f.ref}, p, n);
  }

  /** A file entry met before is that of a node. */
  lemma SeenIsNode(v: Volume, names: Names, nodes: map<Path, Node>, seen: set<Ref>, r: Ref)
    requires Good(v, names, nodes, seen) && forall p | p in nodes :: nodes[p].ref != r
    ensures r !in seen
  {
  }

  lemma SeenAreRefs(v: Volume, names: Names, nodes: map<Path, Node>, seen: set<Ref>)
    requires Good(v, names, nodes, seen)
    ensures Refs(nodes) == seen
  {
  }

  lemma AddCosts(nodes: map<Path, Node>, p: Path, n: Node, cost: Ref -> nat)
    requires p !in nodes && n.ref !in Refs(nodes)
    ensures Total(Refs(nodes[p := n]), cost) == Total(Refs(nodes), cost) + cost(n.ref)
  {
    var more := nodes[p := n];
    forall q | q in nodes
      ensures nodes[q].ref in Refs(more)
    {
      assert more[q].ref == nodes[q].ref;
    }
    assert more[p].ref == n.ref;
    assert Refs(more) == Refs(nodes) + {n.ref};
    TotalAdd(Refs(nodes), cost, n.ref);
  }

  /** A line of an index that the budgets let pass is within them. */
  lemma LineCosts(v: Volume, nodes: map<Path, Node>, whole: map<Path, Node>, d: Path, f: Fid)
    requires Sub(nodes, whole) && LineOf(nodes, whole, d, f) && forall p | p in nodes :: nodes[p].ref != f.ref
    ensures
      || !Admits(v, Refs(nodes), f.ref)
      || Total(Refs(nodes), ExtentsCost(v)) + ExtentsCost(v)(f.ref) > MAX_EXTENTS ==>
        !Passes(v, whole)
  {
    hide Admits, Total, ExtentsCost;
    assert whole[d + [f.name]].ref == f.ref;
    TotalAdd(Refs(nodes), ExtentsCost(v), f.ref);
    TotalGrows(Refs(nodes) + {f.ref}, Refs(whole), ExtentsCost(v));
  }

  /** How the 64-bit sum goes on: as the true one does while no directory claims too much. */
  lemma SumStep(v: Volume, nodes: map<Path, Node>, p: Path, n: Node)
    requires p !in nodes && n.ref !in Refs(nodes) && Admits(v, Refs(nodes), n.ref)
    requires Plausible(v, nodes) ==> Total(Refs(nodes), MetadataCost(v)) <= MAX_METADATA
    ensures var before, after := Total(Refs(nodes), MetadataCost(v)), Total(Refs(nodes[p := n]), MetadataCost(v));
            && Wrap64(after) == Wrap64(Wrap64(before) + MetadataCost(v)(n.ref)) <= MAX_METADATA
            && (Plausible(v, nodes[p := n]) ==> after <= MAX_METADATA)
  {
    hide Total, Refs;
    AddCosts(nodes, p, n, MetadataCost(v));
    WrapAgain(Total(Refs(nodes), MetadataCost(v)), MetadataCost(v)(n.ref));
    var more := nodes[p := n];
    if Plausible(v, more) {
      forall q | q in nodes
        ensures ClaimOf(v.entry(nodes[q].ref)) < TWO_63 - MAX_METADATA
      {
        assert more[q] == nodes[q];
      }
      assert more[p] == n;
    }
  }

  lemma SubStep(nodes: map<Path, Node>, whole: map<Path, Node>, d: Path, f: Fid)
    requires Sub(nodes, whole) && LineOf(nodes, whole, d, f)
    ensures Sub(nodes[d + [f.name] := Node(f.ref, f.isDir)], whole)
  {
  }

  lemma NameHasText(names: Names, f: Fid)
    requires NameOk(names, f)
    ensures f.text
  {
  }

  /** The folded names seen so far are those of the children. */
  lemma FoldedStep(now: map<Path, Node>, fold: string -> string, d: Path, f: Fid, folded: set<string>)
    requires forall k | k in folded :: exists p :: p in now && p != [] && Parent(p) == d && fold(Last(p)) == k
    ensures forall k | k in folded + {fold(f.name)} ::
      exists p :: p in now[d + [f.name] := Node(f.ref, f.isDir)] && p != [] && Parent(p) == d && fold(Last(p)) == k
  {
    ChildPath(d, f.name);
    var more := now[d + [f.name] := Node(f.ref, f.isDir)];
    forall k | k in folded + {fold(f.name)}
      ensures exists p :: p in more && p != [] && Parent(p) == d && fold(Last(p)) == k
    {
      if k == fold(f.name) {
        assert d + [f.name] in more;
      } else {
        var p :| p in now && p != [] && Parent(p) == d && fold(Last(p)) == k;
        assert p in more;
      }
    }
  }

  /** A line of the whole index that is not in the index yet. */
  ghost predicate LineOf(nodes: map<Path, Node>, whole: map<Path, Node>, d: Path, f: Fid) {
    && f.text && d + [f.name] !in nodes
    && d + [f.name] in whole && whole[d + [f.name]] == Node(f.ref, f.isDir)
  }

  /** An image whose root directory is empty has an index. */
  lemma EmptyRootHasIndex(v: Volume, names: Names, root: Ref)
    requires EntryOk(v, Node(root, true)) && v.listing(root) == Some([])
    ensures IsIndex(v, names, root, map[[] := Node(root, true)])
  {
  }

  /** An index of the whole image has the listing of every directory met. */
  lemma WholeHasListing(v: Volume, names: Names, root: Ref, nodes: map<Path, Node>, whole: map<Path, Node>, d: Path)
    requires IsIndex(v, names, root, whole) && Sub(nodes, whole) && d in nodes && nodes[d].dir
    ensures v.listing(nodes[d].ref).Some? && ChildrenAre(whole, d, v.listing(nodes[d].ref).value)
  {
    hide ChildrenAre, Tree, SiblingsDiffer, PlainNames, EntriesOk, EntryOk;
    assert Under(d, []);
    assert Listed(v, whole, d);
  }

  lemma WholeLists(
    v: Volume, names: Names, root: Ref, nodes: map<Path, Node>, whole: map<Path, Node>, d: Path, list: seq<Fid>)
    requires IsIndex(v, names, root, whole) && Sub(nodes, whole) && d in nodes && nodes[d].dir
    requires v.listing(nodes[d].ref) == Some(list)
    ensures ChildrenAre(whole, d, list)
  {
    hide ChildrenAre, IsIndex;
    WholeHasListing(v, names, root, nodes, whole, d);
  }

  /** Such a line passes every check but the budgets. */
  lemma LineFits(v: Volume, names: Names, root: Ref, nodes: map<Path, Node>, whole: map<Path, Node>, d: Path, f: Fid)
    requires IsIndex(v, names, root, whole) && Sub(nodes, whole) && LineOf(nodes, whole, d, f)
    ensures NameOk(names, f) && |d| < MAX_DEPTH && EntryOk(v, Node(f.ref, f.isDir))
    ensures forall p | p in nodes :: nodes[p].ref != f.ref
    ensures forall p | p in nodes && p != [] && Parent(p) == d :: names.fold(Last(p)) != names.fold(f.name)
  {
    hide PlainName, EntryOk, CompleteBelow;
    var c := d + [f.name];
    ChildPath(d, f.name);
    assert |c| <= MAX_DEPTH;
    forall p | p in nodes
      ensures nodes[p].ref != f.ref
    {
      assert whole[p].ref != whole[c].ref || p == c;
    }
    forall p | p in nodes && p != [] && Parent(p) == d
      ensures names.fold(Last(p)) != names.fold(f.name)
    {
      assert p in whole && p != c;
    }
  }

  lemma NextLine(before: map<Path, Node>, now: map<Path, Node>, whole: map<Path, Node>, d: Path, list: seq<Fid>, i: nat)
    requires i < |list| && LinesAdded(before, now, d, list[..i]) && ChildrenAre(whole, d, list)
    requires Childless(before, d)
    ensures LineOf(now, whole, d, list[i])
  {
    ChildPath(d, list[i].name);
    assert list[i] in list;
  }

  // ---- the walker

  class Walker {
    const v: Volume
    const names: Names
    var nodes: map<Path, Node>
    var seen: set<Ref>
    var entries: nat
    var metadata: int
    var extents: nat

    constructor (volume: Volume, n: Names, root: Ref)
      ensures v == volume && names == n
      ensures Valid() && nodes == map[[] := Node(root, true)] && entries == metadata == extents == 0
    {
      v, names := volume, n;
      nodes, seen := map[[] := Node(root, true)], {root};
      entries, metadata, extents := 0, 0, 0;
    }

    ghost predicate Valid()
      reads this
    {
      Good(v, names, nodes, seen) && entries <= MAX_ENTRIES
    }

    /** Symbolic links, devices and every other type are refused, as are chained
        descriptors; what entries cost is added up against both budgets. */
    method CheckEntry(fe: FileEntry) returns (ok: bool)
      requires Int64(metadata) && metadata <= MAX_METADATA
      modifies `metadata, `extents
      ensures ok <==>
        && fe.hasTag && (fe.fileType == TYPE_DIRECTORY || fe.fileType == TYPE_FILE)
        && old(metadata) + fe.attributes + fe.descriptors <= MAX_METADATA
        && old(extents) + |fe.chained| <= MAX_EXTENTS
        && true !in fe.chained
      ensures ok ==>
        metadata == old(metadata) + fe.attributes + fe.descriptors && extents == old(extents) + |fe.chained|
    {
      if !fe.hasTag || (fe.fileType != TYPE_DIRECTORY && fe.fileType != TYPE_FILE) {
        return false;
      }
      metadata := Wrap64(metadata + Wrap64(fe.attributes + fe.descriptors));
      if metadata > MAX_METADATA {
        return false;
      }
      extents := extents + |fe.chained|;
      if extents > MAX_EXTENTS {
        return false;
      }
      for i := 0 to |fe.chained|
        invariant true !in fe.chained[..i]
      {
        if fe.chained[i] {
          return false;
        }
      }
      assert fe.chained[..|fe.chained|] == fe.chained;
      ok := true;
    }

    /** A directory's length counts as well; converting and adding may both wrap. */
    method CountDirectory(length: Uint64) returns (ok: bool)
      modifies `metadata
      ensures metadata == Wrap64(old(metadata) + length) && (ok <==> metadata <= MAX_METADATA)
    {
      WrapAgain(length, metadata);
      metadata := Wrap64(metadata + Wrap64(length));
      ok := metadata <= MAX_METADATA;
    }

    /** The entry of a listed line: of a type that can be copied, in agreement with its
        line, and readable. */
    method ReadEntry(f: Fid) returns (ok: bool)
      requires Int64(metadata) && metadata <= MAX_METADATA
      modifies `metadata, `extents
      ensures ok <==>
        && EntryOk(v, Node(f.ref, f.isDir))
        && old(metadata) + TailsOf(v.entry(f.ref)) <= MAX_METADATA
        && Wrap64(old(metadata) + MetadataCost(v)(f.ref)) <= MAX_METADATA
        && old(extents) + ExtentsCost(v)(f.ref) <= MAX_EXTENTS
      ensures ok ==>
        && metadata == Wrap64(old(metadata) + MetadataCost(v)(f.ref))
        && extents == old(extents) + ExtentsCost(v)(f.ref)
    {
      hide Wrap64;
      var fe := v.entry(f.ref);
      if fe.None? {
        return false;
      }
      ok := CheckEntry(fe.value);
      if !ok {
        return;
      }
      var isDir := fe.value.fileType == TYPE_DIRECTORY;
      if isDir != f.isDir {
        return false;
      }
      if isDir {
        ok := CountDirectory(fe.value.length);
      } else {
        ok := v.readable(f.ref);
      }
    }

    /** The root's entry: as that of a directory, but it has no line to agree with. */
    method RootEntry(root: Ref) returns (ok: bool)
      requires metadata == extents == 0
      modifies `metadata, `extents
      ensures ok <==> EntryOk(v, Node(root, true)) && Admits(v, {}, root) && ExtentsCost(v)(root) <= MAX_EXTENTS
      ensures ok ==> metadata == Wrap64(MetadataCost(v)(root)) && extents == ExtentsCost(v)(root)
    {
      hide Wrap64;
      var fe := v.entry(root);
      if fe.None? {
        return false;
      }
      ok := CheckEntry(fe.value);
      if !ok || fe.value.fileType != TYPE_DIRECTORY {
        return false;
      }
      ok := CountDirectory(fe.value.length);
    }

    /** What the entries met so far have cost; in metadata it may have wrapped. */
    ghost predicate Counted()
      reads `nodes, `metadata, `extents
    {
      && metadata == Wrap64(Total(Refs(nodes), MetadataCost(v))) <= MAX_METADATA
      && (Plausible(v, nodes) ==> Total(Refs(nodes), MetadataCost(v)) <= MAX_METADATA)
      && extents == Total(Refs(nodes), ExtentsCost(v)) <= MAX_EXTENTS
    }

    /** The index so far is part of an index of the whole image, if there is one. */
    ghost predicate OnTheWay(root: Ref, whole: Option<map<Path, Node>>)
      reads `nodes
    {
      whole.Some? ==> IsIndex(v, names, root, whole.value) && Sub(nodes, whole.value)
    }

    /** What the entry of a new line adds. */
    method Enter(d: Path, f: Fid) returns (ok: bool)
      requires Valid() && d in nodes && nodes[d].dir && Counted()
      requires NameOk(names, f) && |d| < MAX_DEPTH && f.ref !in seen && d + [f.name] !in nodes
      requires forall p | p in nodes && p != [] && Parent(p) == d :: names.fold(Last(p)) != names.fold(f.name)
      modifies `nodes, `seen, `metadata, `extents
      ensures ok <==>
        && EntryOk(v, Node(f.ref, f.isDir)) && Admits(v, Refs(old(nodes)), f.ref)
        && Total(Refs(old(nodes)), ExtentsCost(v)) + ExtentsCost(v)(f.ref) <= MAX_EXTENTS
      ensures ok ==> Valid() && Counted() && nodes == old(nodes)[d + [f.name] := Node(f.ref, f.isDir)]
    {
      hide PlainName, EntryOk, Good, Wrap64, Total, MetadataCost, ExtentsCost, Plausible;
      ghost var before := seen;
      seen := seen + {f.ref};
      ok := ReadEntry(f);
      if !ok {
        return;
      }
      AddKeepsGood(v, names, nodes, before, d, f);
      SeenAreRefs(v, names, nodes, before);
      SumStep(v, nodes, d + [f.name], Node(f.ref, f.isDir));
      AddCosts(nodes, d + [f.name], Node(f.ref, f.isDir), ExtentsCost(v));
      nodes := nodes[d + [f.name] := Node(f.ref, f.isDir)];
    }

    /** One line of a listing: a new node, with a name and a file entry not met before. A
        line of an image that has an index is refused for no reason but a budget. */
    method AddLine(d: Path, f: Fid, folded: set<string>, ghost root: Ref, ghost whole: Option<map<Path, Node>>)
      returns (ok: bool)
      requires Valid() && d in nodes && nodes[d].dir
      requires forall p | p in nodes && p != [] && Parent(p) == d :: names.fold(Last(p)) in folded
      requires forall k | k in folded :: exists p :: p in nodes && p != [] && Parent(p) == d && names.fold(Last(p)) == k
      requires Counted() && OnTheWay(root, whole) && (whole.Some? ==> LineOf(nodes, whole.value, d, f))
      modifies `nodes, `seen, `metadata, `extents
      ensures ok ==> Valid() && NameOk(names, f) && names.fold(f.name) !in folded
      ensures ok ==> d + [f.name] !in old(nodes) && nodes == old(nodes)[d + [f.name] := Node(f.ref, f.isDir)]
      ensures ok ==> Counted() && OnTheWay(root, whole)
      ensures whole.Some? && !ok ==> !Passes(v, whole.value)
    {
      hide PlainName, IsIndex, EntryOk, Good, Sub, LineOf, Passes, Total, MetadataCost, ExtentsCost, FoldPath, Counted;
      hide Admits;
      if whole.Some? {
        LineFits(v, names, root, nodes, whole.value, d, f);
        SeenIsNode(v, names, nodes, seen, f.ref);
        SubStep(nodes, whole.value, d, f);
        LineCosts(v, nodes, whole.value, d, f);
      }
      if !NameOk(names, f) || names.fold(f.name) in folded || |d| >= MAX_DEPTH || f.ref in seen {
        return false;
      }
      ChildPath(d, f.name);
      ok := Enter(d, f);
    }

    method AddLines(d: Path, list: seq<Fid>, ghost root: Ref, ghost whole: Option<map<Path, Node>>) returns (ok: bool)
      requires Valid() && d in nodes && nodes[d].dir && Childless(nodes, d)
      requires Counted() && OnTheWay(root, whole) && (whole.Some? ==> ChildrenAre(whole.value, d, list))
      modifies `nodes, `seen, `metadata, `extents
      ensures ok ==> Valid() && Counted() && LinesAdded(old(nodes), nodes, d, list) && OnTheWay(root, whole)
      ensures whole.Some? && !ok ==> !Passes(v, whole.value)
    {
      hide Good, NameOk, LinesAdded, Childless, IsIndex, Sub, ChildrenAre, LineOf, Counted, Passes;
      var folded: set<string> := {};
      NoChildren(nodes, d);
      for i := 0 to |list|
        invariant Valid() && d in nodes && nodes[d].dir && OnTheWay(root, whole)
        invariant LinesAdded(old(nodes), nodes, d, list[..i])
        invariant forall p | p in nodes && p != [] && Parent(p) == d :: names.fold(Last(p)) in folded
        invariant forall k | k in folded ::
          exists p :: p in nodes && p != [] && Parent(p) == d && names.fold(Last(p)) == k
        invariant Counted()
      {
        ghost var now := nodes;
        if whole.Some? {
          NextLine(old(nodes), nodes, whole.value, d, list, i);
        }
        ok := AddLine(d, list[i], folded, root, whole);
        if !ok {
          return;
        }
        NameHasText(names, list[i]);
        LinesAddedStep(old(nodes), now, d, list[..i], list[i]);
        assert list[..i + 1] == list[..i] + [list[i]];
        ChildPath(d, list[i].name);
        FoldedStep(now, names.fold, d, list[i], folded);
        folded := folded + {names.fold(list[i].name)};
      }
      assert list[..|list|] == list;
      ok := true;
    }

    /** The subdirectories done so far are complete, the others still without children. */
    ghost predicate Progress(before: map<Path, Node>, d: Path, list: seq<Fid>, i: nat)
      requires i <= |list|
      reads `nodes
    {
      && GrowsBelow(before, nodes, d)
      && d in nodes && nodes[d].dir && ChildrenAre(nodes, d, list)
      && (forall j | 0 <= j < i && list[j].isDir :: CompleteBelow(v, nodes, d + [list[j].name]))
      && (forall j | i <= j < |list| :: Childless(nodes, d + [list[j].name]))
    }

    lemma ProgressStart(before: map<Path, Node>, d: Path, list: seq<Fid>)
      requires LinesAdded(before, nodes, d, list) && Childless(before, d) && d in before && before[d].dir
      ensures Progress(before, d, list, 0)
    {
      hide ChildrenAre, Childless, CompleteBelow;
      forall j | 0 <= j < |list|
        ensures Childless(nodes, d + [list[j].name])
      {
        NewChildrenChildless(before, nodes, d, list, list[j]);
      }
    }

    lemma SkipFile(before: map<Path, Node>, d: Path, list: seq<Fid>, i: nat)
      requires i < |list| && Progress(before, d, list, i) && !list[i].isDir
      ensures Progress(before, d, list, i + 1)
    {
    }

    /** Walking one subdirectory leaves the others as they are. */
    lemma ProgressStep(before: map<Path, Node>, now: map<Path, Node>, d: Path, list: seq<Fid>, i: nat)
      requires i < |list|
      requires forall j, k | 0 <= j < k < |list| :: list[j].name != list[k].name
      requires GrowsBelow(before, now, d) && d in now && now[d].dir && ChildrenAre(now, d, list)
      requires forall j | 0 <= j < i && list[j].isDir :: CompleteBelow(v, now, d + [list[j].name])
      requires forall j | i <= j < |list| :: Childless(now, d + [list[j].name])
      requires GrowsBelow(now, nodes, d + [list[i].name])
      requires CompleteBelow(v, nodes, d + [list[i].name])
      ensures Progress(before, d, list, i + 1)
    {
      hide Listed;
      var c := d + [list[i].name];
      ChildPath(d, list[i].name);
      GrowsTwice(before, now, nodes, d, c);
      ChildrenStay(now, nodes, c, d, list);
      hide GrowsBelow, ChildrenAre, Childless, CompleteBelow, Under;
      forall j | 0 <= j < i + 1 && list[j].isDir
        ensures CompleteBelow(v, nodes, d + [list[j].name])
      {
        if j < i {
          OtherChild(d, list[i].name, list[j].name);
          CompleteStays(v, now, nodes, c, d + [list[j].name]);
        }
      }
      forall j | i + 1 <= j < |list|
        ensures Childless(nodes, d + [list[j].name])
      {
        OtherChild(d, list[i].name, list[j].name);
        ChildlessStays(now, nodes, c, d + [list[j].name]);
      }
    }

    lemma OtherChild(d: Path, a: string, b: string)
      requires a != b
      ensures d + [a] != d + [b] && |d + [a]| == |d + [b]|
    {
      assert (d + [a])[|d|] == a && (d + [b])[|d|] == b;
    }

    lemma ChildrenStay(now: map<Path, Node>, more: map<Path, Node>, c: Path, d: Path, list: seq<Fid>)
      requires GrowsBelow(now, more, c) && c != [] && Parent(c) == d && d in now && ChildrenAre(now, d, list)
      ensures d in more && more[d] == now[d] && ChildrenAre(more, d, list)
    {
      forall p | p in more && p != [] && Parent(p) == d
        ensures p in now
      {
        if p !in now {
          ParentUnder(p, c);
        }
      }
    }

    /** dir: on success everything below d is in the index, each directory with its whole
        listing, and nothing else was added. The recursion ends at the depth limit,
        whatever the image lists. */
    method Dir(d: Path, list: seq<Fid>, ghost root: Ref, ghost whole: Option<map<Path, Node>>) returns (ok: bool)
      requires OnTheWay(root, whole) && Counted() && |nodes| == 1 + entries
      requires Valid() && d in nodes && nodes[d].dir && Childless(nodes, d) && |d| <= MAX_DEPTH
      requires v.listing(nodes[d].ref) == Some(list)
      modifies `nodes, `seen, `entries, `metadata, `extents
      ensures ok ==> Valid() && GrowsBelow(old(nodes), nodes, d) && CompleteBelow(v, nodes, d)
      ensures ok ==> OnTheWay(root, whole) && Counted() && |nodes| == 1 + entries
      ensures whole.Some? && !ok ==> !Passes(v, whole.value)
      decreases MAX_DEPTH - |d|, 2
    {
      hide Good, Childless, CompleteBelow, ChildrenAre, GrowsBelow, LinesAdded, IsIndex, Sub, Counted, Passes;
      if whole.Some? {
        WholeLists(v, names, root, nodes, whole.value, d, list);
        LinesCount(v, nodes, whole.value, d, list);
      }
      entries := entries + |list|;
      if entries > MAX_ENTRIES {
        return false;
      }
      ghost var before := nodes;
      ok := AddLines(d, list, root, whole);
      if !ok {
        return;
      }
      ProgressStart(before, d, list);
      assert |nodes| == |before| + |list| && (forall j, k | 0 <= j < k < |list| :: list[j].name != list[k].name) by {
        LinesCounted(before, nodes, d, list);
      }
      assert d in nodes && nodes[d] == before[d] by {
        LinesCounted(before, nodes, d, list);
        GrowsKeeps(before, nodes, d, d);
      }
      ok := Subdirectories(before, d, list, root, whole);
    }

    lemma ProgressDone(before: map<Path, Node>, d: Path, list: seq<Fid>)
      requires Good(v, names, nodes, seen) && Progress(before, d, list, |list|) && v.listing(nodes[d].ref) == Some(list)
      ensures GrowsBelow(before, nodes, d) && CompleteBelow(v, nodes, d)
    {
      hide Tree, ChildrenAre, CompleteBelow, GrowsBelow, Childless;
      forall f | f in list && f.isDir
        ensures CompleteBelow(v, nodes, d + [f.name])
      {
        var j :| 0 <= j < |list| && list[j] == f;
      }
      CompleteFromChildren(v, nodes, d, list);
    }

    /** What the walk of one subdirectory may rely on. */
    lemma NextChild(before: map<Path, Node>, d: Path, list: seq<Fid>, i: nat)
      requires Good(v, names, nodes, seen) && i < |list| && Progress(before, d, list, i)
      ensures var c := d + [list[i].name];
              && c in nodes && nodes[c] == Node(list[i].ref, list[i].isDir) && Childless(nodes, c)
              && |d| < |c| <= MAX_DEPTH
    {
      hide CompleteBelow, GrowsBelow;
    }

    method Subdirectory(
      ghost before: map<Path, Node>, d: Path, list: seq<Fid>, i: nat,
      ghost root: Ref, ghost whole: Option<map<Path, Node>>)
      returns (ok: bool)
      requires OnTheWay(root, whole) && Counted() && |nodes| == 1 + entries
      requires Valid() && i < |list| && Progress(before, d, list, i) && list[i].isDir && |d| <= MAX_DEPTH
      requires d in nodes
      requires forall j, k | 0 <= j < k < |list| :: list[j].name != list[k].name
      modifies `nodes, `seen, `entries, `metadata, `extents
      ensures ok ==> Valid() && Progress(before, d, list, i + 1) && OnTheWay(root, whole)
      ensures ok ==> Counted() && |nodes| == 1 + entries
      ensures whole.Some? && !ok ==> !Passes(v, whole.value)
      ensures ok ==> d in nodes && nodes[d] == old(nodes)[d]
      decreases MAX_DEPTH - |d|, 0
    {
      var c := d + [list[i].name];
      NextChild(before, d, list, i);
      var kids := v.listing(list[i].ref);
      if whole.Some? {
        WholeHasListing(v, names, root, nodes, whole.value, c);
      }
      if kids.None? {
        return false;
      }
      ghost var now := nodes;
      ProgressParts(before, now, d, list, i);
      hide Good, Childless, CompleteBelow, ChildrenAre, Progress, GrowsBelow, IsIndex, Sub, Counted, Passes;
      ok := Dir(c, kids.value, root, whole);
      if ok {
        ProgressStep(before, now, d, list, i);
        GrowsKeeps(now, nodes, c, d);
      }
    }

    lemma GrowsKeeps(now: map<Path, Node>, more: map<Path, Node>, c: Path, d: Path)
      requires GrowsBelow(now, more, c) && d in now
      ensures d in more && more[d] == now[d]
    {
    }

    lemma ProgressParts(before: map<Path, Node>, now: map<Path, Node>, d: Path, list: seq<Fid>, i: nat)
      requires i < |list| && now == nodes && Progress(before, d, list, i)
      ensures GrowsBelow(before, now, d) && d in now && now[d].dir && ChildrenAre(now, d, list)
      ensures forall j | 0 <= j < i && list[j].isDir :: CompleteBelow(v, now, d + [list[j].name])
      ensures forall j | i <= j < |list| :: Childless(now, d + [list[j].name])
    {
      hide GrowsBelow, ChildrenAre, CompleteBelow, Childless;
    }

    lemma LinesCounted(before: map<Path, Node>, now: map<Path, Node>, d: Path, list: seq<Fid>)
      requires LinesAdded(before, now, d, list)
      ensures GrowsBelow(before, now, d)
      ensures |now| == |before| + |list| && forall j, k | 0 <= j < k < |list| :: list[j].name != list[k].name
    {
    }

    method Subdirectories(
      ghost before: map<Path, Node>, d: Path, list: seq<Fid>, ghost root: Ref, ghost whole: Option<map<Path, Node>>)
      returns (ok: bool)
      requires OnTheWay(root, whole) && Counted() && |nodes| == 1 + entries
      requires Valid() && d in nodes && Progress(before, d, list, 0) && |d| <= MAX_DEPTH
      requires forall j, k | 0 <= j < k < |list| :: list[j].name != list[k].name
      requires v.listing(nodes[d].ref) == Some(list)
      modifies `nodes, `seen, `entries, `metadata, `extents
      ensures ok ==> Valid() && GrowsBelow(before, nodes, d) && CompleteBelow(v, nodes, d)
      ensures ok ==> OnTheWay(root, whole) && Counted() && |nodes| == 1 + entries
      ensures whole.Some? && !ok ==> !Passes(v, whole.value)
      decreases MAX_DEPTH - |d|, 1
    {
      hide Good, Childless, CompleteBelow, ChildrenAre, GrowsBelow, Progress, IsIndex, Sub, Counted, Passes;
      ghost var ref := nodes[d].ref;
      for i := 0 to |list|
        invariant Valid() && Progress(before, d, list, i) && OnTheWay(root, whole)
        invariant d in nodes && nodes[d].ref == ref
        invariant Counted() && |nodes| == 1 + entries
      {
        if list[i].isDir {
          ok := Subdirectory(before, d, list, i, root, whole);
          if !ok {
            return;
          }
        } else {
          SkipFile(before, d, list, i);
        }
      }
      ProgressDone(before, d, list);
      ok := true;
    }
  }

  /** newImage: an accepted image has an index, a finite tree, each node a different file
      entry, paths distinct on FAT32, every directory with exactly the lines of its listing;
      its entries and extents fit their budgets, its metadata if and only if no directory
      claims too much. What has an index that fits, or passes, is accepted. */
  method Open(v: Volume, names: Names, root: Ref) returns (w: Walker, ok: bool)
    ensures ok ==> IsIndex(v, names, root, w.nodes) && |w.nodes| <= 100001
    ensures ok ==> Total(Refs(w.nodes), ExtentsCost(v)) <= 1048576
    ensures ok ==> (Within(v, w.nodes) <==> Plausible(v, w.nodes))
    ensures ok && Plausible(v, w.nodes) <==> exists nodes :: IsIndex(v, names, root, nodes) && Within(v, nodes)
    ensures (exists nodes :: IsIndex(v, names, root, nodes) && Passes(v, nodes)) ==> ok
  {
    hide IsIndex, CompleteBelow, GrowsBelow, Plausible, Total, Refs, Passes;
    ghost var whole := None;
    if nodes :| IsIndex(v, names, root, nodes) && Within(v, nodes) {
      WithinPasses(v, nodes);
      whole := Some(nodes);
    } else if nodes :| IsIndex(v, names, root, nodes) && Passes(v, nodes) {
      whole := Some(nodes);
    }
    w, ok := Walk(v, names, root, whole);
    if ok && whole.Some? {
      IndexUnique(v, names, root, w.nodes, whole.value);
    }
    if Within(v, w.nodes) {
      WithinIsPlausible(v, w.nodes);
    }
  }

  method Walk(v: Volume, names: Names, root: Ref, ghost whole: Option<map<Path, Node>>) returns (w: Walker, ok: bool)
    requires whole.Some? ==> IsIndex(v, names, root, whole.value)
    ensures ok ==> IsIndex(v, names, root, w.nodes) && |w.nodes| <= 1 + MAX_ENTRIES
    ensures ok ==> Total(Refs(w.nodes), ExtentsCost(v)) <= MAX_EXTENTS
    ensures ok && Plausible(v, w.nodes) ==> Total(Refs(w.nodes), MetadataCost(v)) <= MAX_METADATA
    ensures !ok && whole.Some? ==> !Passes(v, whole.value)
  {
    hide Tree, SiblingsDiffer, PlainNames, CompleteBelow, GrowsBelow, EntriesOk, Plausible, Admits, Passes;
    w := new Walker(v, names, root);
    if whole.Some? {
      WholeRoot(v, names, root, whole.value);
    }
    RootCosts(v, root, whole);
    ok := w.RootEntry(root);
    if !ok {
      return;
    }
    RootSum(v, root);
    RootOnly(w.nodes, root, whole);
    if whole.Some? {
      WholeHasListing(v, names, root, w.nodes, whole.value, []);
    }
    var list := v.listing(root);
    if list.None? {
      return w, false;
    }
    ghost var start := w.nodes;
    assert |start| == 1 && w.entries == 0;
    ok := w.Dir([], list.value, root, whole);
    if ok {
      w.GrowsKeeps(start, w.nodes, [], []);
    }
  }

  /** The root is one of the entries that the whole index pays for. */
  lemma RootCosts(v: Volume, root: Ref, whole: Option<map<Path, Node>>)
    requires whole.Some? ==> [] in whole.value && whole.value[[]] == Node(root, true)
    ensures Total(Refs(map[[] := Node(root, true)]), MetadataCost(v)) == MetadataCost(v)(root)
    ensures Total(Refs(map[[] := Node(root, true)]), ExtentsCost(v)) == ExtentsCost(v)(root)
    ensures whole.Some? && (!Admits(v, {}, root) || ExtentsCost(v)(root) > MAX_EXTENTS) ==> !Passes(v, whole.value)
  {
    hide Admits;
    var only := map[[] := Node(root, true)];
    assert only[[]].ref == root;
    assert Refs(only) == {root} == {} + {root};
    TotalAdd({}, MetadataCost(v), root);
    TotalAdd({}, ExtentsCost(v), root);
    if whole.Some? {
      assert whole.value[[]].ref in Refs(whole.value);
      TotalGrows({root}, Refs(whole.value), ExtentsCost(v));
    }
  }

  /** The budgets after the root alone. */
  lemma RootSum(v: Volume, root: Ref)
    requires Admits(v, {}, root)
    ensures Wrap64(MetadataCost(v)(root)) <= MAX_METADATA
    ensures Plausible(v, map[[] := Node(root, true)]) ==> MetadataCost(v)(root) <= MAX_METADATA
  {
    var only: map<Path, Node> := map[[] := Node(root, true)];
    assert only[[]].ref == root;
  }

  /** What an index says of a path is what the image says. */
  lemma ChildOf(v: Volume, names: Names, root: Ref, a: map<Path, Node>, p: Path)
    requires IsIndex(v, names, root, a) && p in a && p != []
    ensures Parent(p) in a && a[Parent(p)].dir && v.listing(a[Parent(p)].ref).Some?
    ensures exists f :: f in v.listing(a[Parent(p)].ref).value && f.name == Last(p) && a[p] == Node(f.ref, f.isDir)
  {
    hide SiblingsDiffer, PlainNames, EntriesOk, EntryOk, CompleteBelow, ChildrenAre, FoldPath;
    var d := Parent(p);
    assert d in a && a[d].dir;
    hide Tree;
    WholeHasListing(v, names, root, a, a, d);
    LineFor(a, d, v.listing(a[d].ref).value, p);
  }

  lemma LineFor(a: map<Path, Node>, d: Path, list: seq<Fid>, p: Path)
    requires ChildrenAre(a, d, list) && p in a && p != [] && Parent(p) == d
    ensures exists f :: f in list && f.name == Last(p) && a[p] == Node(f.ref, f.isDir)
  {
    var f :| f in list && f.name == Last(p);
    assert p == d + [f.name];
  }

  lemma {:induction false} IndexPaths(
    v: Volume, names: Names, root: Ref, a: map<Path, Node>, b: map<Path, Node>, p: Path)
    requires IsIndex(v, names, root, a) && IsIndex(v, names, root, b) && p in a
    ensures p in b && a[p] == b[p]
    decreases |p|
  {
    hide IsIndex, ChildrenAre;
    if p == [] {
      WholeRoot(v, names, root, a);
      WholeRoot(v, names, root, b);
    } else {
      var d := Parent(p);
      ChildOf(v, names, root, a, p);
      IndexPaths(v, names, root, a, b, d);
      var list := v.listing(a[d].ref).value;
      var f :| f in list && f.name == Last(p) && a[p] == Node(f.ref, f.isDir);
      WholeLists(v, names, root, b, b, d, list);
      ListedLine(b, d, list, f);
      assert p == d + [f.name];
    }
  }

  lemma ListedLine(b: map<Path, Node>, d: Path, list: seq<Fid>, f: Fid)
    requires ChildrenAre(b, d, list) && f in list
    ensures d + [f.name] in b && b[d + [f.name]] == Node(f.ref, f.isDir)
  {
  }

  /** An image has at most one index. */
  lemma IndexUnique(v: Volume, names: Names, root: Ref, a: map<Path, Node>, b: map<Path, Node>)
    requires IsIndex(v, names, root, a) && IsIndex(v, names, root, b)
    ensures a == b
  {
    hide IsIndex;
    forall p | p in a
      ensures p in b && a[p] == b[p]
    {
      IndexPaths(v, names, root, a, b, p);
    }
    forall p | p in b
      ensures p in a
    {
      IndexPaths(v, names, root, b, a, p);
    }
    assert a.Keys == b.Keys;
  }

  lemma WholeRoot(v: Volume, names: Names, root: Ref, whole: map<Path, Node>)
    requires IsIndex(v, names, root, whole)
    ensures [] in whole && whole[[]] == Node(root, true) && EntryOk(v, Node(root, true))
  {
    hide SiblingsDiffer, PlainNames, CompleteBelow, EntriesOk, EntryOk;
  }

  lemma RootOnly(nodes: map<Path, Node>, root: Ref, whole: Option<map<Path, Node>>)
    requires nodes == map[[] := Node(root, true)]
    requires whole.Some? ==> [] in whole.value && whole.value[[]] == Node(root, true)
    ensures Childless(nodes, []) && (whole.Some? ==> Sub(nodes, whole.value))
  {
  }
}
