/**
 Immutable packages: `pack_directory` turns a directory into an archive's member
 list, `safe_extract` validates a member list and builds a tree from it. Tar and
 gzip are a transparent envelope around the member list.
 */
module Packages {
  import opened Common
  import opened TextOrder

  datatype Kind = DirMember | FileMember | LinkMember | SpecialMember

  datatype Member = Member(name: string, kind: Kind, content: Bytes, mode: nat)

  datatype Node = Dir | File(content: Bytes, executable: bool)

  type Tree = map<Path, Node>

  datatype Limits = Limits(members: int, memberBytes: int, expandedBytes: int)

  datatype Result<+T> = Ok(value: T) | Rejected

  /** Somebody may execute it. */
  predicate AnyExecute(mode: nat) {
    mode % 2 == 1 || mode / 8 % 2 == 1 || mode / 64 % 2 == 1
  }

  /** The lowest bit of one of the three octal digits of a mode. */
  lemma AnyExecuteIs(high: nat, user: nat, group: nat, other: nat)
    requires user < 8 && group < 8 && other < 8
    ensures AnyExecute(512 * high + 64 * user + 8 * group + other) <==>
      user in {1, 3, 5, 7} || group in {1, 3, 5, 7} || other in {1, 3, 5, 7}
  {
    var upper := 8 * high + user;
    OctalDigit(8 * upper + group, other);
    OctalDigit(upper, group);
    OctalDigit(high, user);
    var mode := 8 * (8 * upper + group) + other;
    assert mode / 64 == mode / 8 / 8;
    assert AnyExecute(mode) <==> other % 2 == 1 || group % 2 == 1 || user % 2 == 1;
  }

  lemma OctalDigit(rest: nat, digit: nat)
    requires digit < 8
    ensures (8 * rest + digit) / 8 == rest && (8 * rest + digit) % 2 == digit % 2
  {
    Halved(8 * rest + digit, 4 * rest + digit / 2, digit % 2);
  }

  lemma Halved(x: nat, half: nat, bit: nat)
    requires x == 2 * half + bit && bit < 2
    ensures x % 2 == bit
  {
  }

  // ---- member names, as PurePosixPath reads them ----

  function Split(name: string): (parts: seq<string>)
    ensures |parts| > 0
  {
    if name == "" then [""]
    else
      var rest := Split(name[1..]);
      if name[0] == '/' then [""] + rest else [[name[0]] + rest[0]] + rest[1..]
  }

  function Significant(parts: seq<string>): Path {
    if parts == [] then []
    else (if parts[0] == "" || parts[0] == "." then [] else [parts[0]]) + Significant(parts[1..])
  }

  function Parts(name: string): Path {
    Significant(Split(name))
  }

  predicate Absolute(name: string) {
    name != "" && name[0] == '/'
  }

  predicate SafeName(name: string) {
    !Absolute(name) && Parts(name) != [] && ".." !in Parts(name)
  }

  /** p is q or one of its parents. */
  predicate Leads(p: Path, q: Path) {
    p <= q
  }

  /** p is a proper parent of q. */
  predicate Above(p: Path, q: Path) {
    p < q
  }

  // ---- what an archive has to be, whatever its order ----

  function Size(m: Member): nat {
    if m.kind.FileMember? then |m.content| else 0
  }

  function TotalSize(ms: seq<Member>, n: nat): nat
    requires n <= |ms|
  {
    if n == 0 then 0 else TotalSize(ms, n - 1) + Size(ms[n - 1])
  }

  predicate SoundMember(m: Member, limits: Limits) {
    && SafeName(m.name) && (m.kind.DirMember? || m.kind.FileMember?)
    && (m.kind.FileMember? ==> |m.content| <= limits.memberBytes)
  }

  predicate Distinct(ms: seq<Member>, n: nat)
    requires n <= |ms|
  {
    forall i, j :: 0 <= i < j < n ==> Parts(ms[i].name) != Parts(ms[j].name)
  }

  predicate NoFileAboveLater(ms: seq<Member>, n: nat)
    requires n <= |ms|
  {
    forall i, j :: 0 <= i < j < n && ms[i].kind.FileMember? ==> !Above(Parts(ms[i].name), Parts(ms[j].name))
  }

  predicate NoFileAboveEarlier(ms: seq<Member>, n: nat)
    requires n <= |ms|
  {
    forall i, j :: 0 <= i < j < n && ms[j].kind.FileMember? ==> !Above(Parts(ms[j].name), Parts(ms[i].name))
  }

  predicate Positive(limits: Limits) {
    limits.members >= 1 && limits.memberBytes >= 1 && limits.expandedBytes >= 1
  }

  /** What the first pass has established after n members. */
  predicate Checked(ms: seq<Member>, limits: Limits, n: nat)
    requires n <= |ms|
  {
    && TotalSize(ms, n) <= limits.expandedBytes
    && (forall k :: 0 <= k < n ==> SoundMember(ms[k], limits))
    && Distinct(ms, n) && NoFileAboveLater(ms, n)
  }

  /** An archive is acceptable whatever the order of its members. */
  predicate Acceptable(ms: seq<Member>, limits: Limits) {
    Positive(limits) && |ms| <= limits.members && Checked(ms, limits, |ms|) && NoFileAboveEarlier(ms, |ms|)
  }

  // ---- the same, defect by defect ----

  /** Everything an archive unpacks to, end to end. */
  function AllContents(ms: seq<Member>): Bytes {
    if ms == [] then []
    else (if ms[0].kind == FileMember then ms[0].content else []) + AllContents(ms[1..])
  }

  lemma {:induction false} TotalFromFront(ms: seq<Member>, n: nat)
    requires 0 < n <= |ms|
    ensures TotalSize(ms, n) == Size(ms[0]) + TotalSize(ms[1..], n - 1)
  {
    if n > 1 {
      TotalFromFront(ms, n - 1);
    }
  }

  lemma {:induction false} ContentsFit(ms: seq<Member>)
    ensures |AllContents(ms)| == TotalSize(ms, |ms|)
  {
    if ms != [] {
      ContentsFit(ms[1..]);
      TotalFromFront(ms, |ms|);
    }
  }

  /** An absolute name, one that goes up or names nothing, a link or special file, or a file too large. */
  predicate Defective(m: Member, limits: Limits) {
    || (|m.name| > 0 && m.name[0] == '/') || Parts(m.name) == [] || ".." in Parts(m.name)
    || m.kind == LinkMember || m.kind == SpecialMember || (m.kind == FileMember && |m.content| > limits.memberBytes)
  }

  /** Two members of one path, or a file in the place of a directory another member needs, in either order. */
  predicate Clashing(a: Member, b: Member) {
    || Parts(a.name) == Parts(b.name)
    || (a.kind == FileMember && |Parts(a.name)| < |Parts(b.name)| && Parts(b.name)[..|Parts(a.name)|] == Parts(a.name))
  }

  /** An archive is refused exactly for a limit below one, too many members, too many bytes, a defect or a clash. */
  lemma AcceptableIff(ms: seq<Member>, limits: Limits)
    ensures Acceptable(ms, limits) <==>
      && limits.members >= 1 && limits.memberBytes >= 1 && limits.expandedBytes >= 1
      && |ms| <= limits.members && |AllContents(ms)| <= limits.expandedBytes
      && (forall i :: 0 <= i < |ms| ==> !Defective(ms[i], limits))
      && (forall i, j :: 0 <= i < |ms| && 0 <= j < |ms| && i != j ==> !Clashing(ms[i], ms[j]))
  {
    hide Parts, TotalSize, AllContents;
    ContentsFit(ms);
    if Acceptable(ms, limits) {
      forall i, j | 0 <= i < |ms| && 0 <= j < |ms| && i != j ensures !Clashing(ms[i], ms[j]) {
        assert i < j || j < i;
      }
    } else if (forall i :: 0 <= i < |ms| ==> !Defective(ms[i], limits))
        && (forall i, j :: 0 <= i < |ms| && 0 <= j < |ms| && i != j ==> !Clashing(ms[i], ms[j])) {
      forall i, j | 0 <= i < |ms| && 0 <= j < |ms| && i != j
        ensures Parts(ms[i].name) != Parts(ms[j].name)
        ensures ms[i].kind.FileMember? ==> !Above(Parts(ms[i].name), Parts(ms[j].name))
      {
        assert !Clashing(ms[i], ms[j]);
      }
    }
  }

  // ---- the tree the first n members stand for ----

  /** p is a member's path or one of its parent directories. */
  ghost predicate Covers(ms: seq<Member>, n: nat, p: Path)
    requires n <= |ms|
  {
    p != [] && exists i :: 0 <= i < n && Leads(p, Parts(ms[i].name))
  }

  function NodeOf(m: Member): Node {
    if m.kind.FileMember? then File(m.content, AnyExecute(m.mode)) else Dir
  }

  ghost predicate FileAt(ms: seq<Member>, n: nat, p: Path)
    requires n <= |ms|
  {
    exists i :: 0 <= i < n && ms[i].kind.FileMember? && Parts(ms[i].name) == p
  }

  /** Exactly the members and their parent directories; files exactly the file members. */
  ghost predicate IsTreeOf(tree: Tree, ms: seq<Member>, n: nat)
    requires n <= |ms|
  {
    Covered(tree, ms, n) && NodesMatch(tree, ms, n) && FilesListed(tree, ms, n)
  }

  ghost predicate Covered(tree: Tree, ms: seq<Member>, n: nat)
    requires n <= |ms|
  {
    forall p :: p in tree <==> Covers(ms, n, p)
  }

  ghost predicate NodesMatch(tree: Tree, ms: seq<Member>, n: nat)
    requires n <= |ms|
  {
    forall i :: 0 <= i < n ==> Parts(ms[i].name) in tree ==> tree[Parts(ms[i].name)] == NodeOf(ms[i])
  }

  ghost predicate FilesListed(tree: Tree, ms: seq<Member>, n: nat)
    requires n <= |ms|
  {
    forall p :: p in tree && tree[p].File? ==> FileAt(ms, n, p)
  }

  /** The members determine the tree. */
  lemma TreeIsUnique(t: Tree, u: Tree, ms: seq<Member>)
    requires IsTreeOf(t, ms, |ms|) && IsTreeOf(u, ms, |ms|)
    ensures t == u
  {
    assert forall p :: p in t <==> p in u;
    forall p | p in t ensures t[p] == u[p] {
      if FileAt(ms, |ms|, p) {
        var i :| 0 <= i < |ms| && ms[i].kind.FileMember? && Parts(ms[i].name) == p;
        assert t[p] == NodeOf(ms[i]) && u[p] == NodeOf(ms[i]);
      } else {
        assert t[p] == Dir && u[p] == Dir;
      }
    }
  }

  // ---- the first pass: names, kinds, sizes, and files above later members ----

  lemma {:induction false} CheckedShrinks(ms: seq<Member>, limits: Limits, n: nat, m: nat)
    requires n <= m <= |ms| && Checked(ms, limits, m)
    ensures Checked(ms, limits, n)
    decreases m - n
  {
    hide Parts, SoundMember, Above;
    if n < m {
      CheckedShrinks(ms, limits, n + 1, m);
    }
  }

  ghost predicate NamesOf(names: map<Path, bool>, ms: seq<Member>, n: nat)
    requires n <= |ms|
  {
    && (forall p :: p in names ==> exists i :: 0 <= i < n && Parts(ms[i].name) == p && names[p] == ms[i].kind.DirMember?)
    && (forall i :: 0 <= i < n ==> Parts(ms[i].name) in names)
  }

  ghost predicate FileParent(names: map<Path, bool>, p: Path) {
    exists q :: q != [] && Above(q, p) && q in names && !names[q]
  }

  /** The dictionary lookups of one member's proper parents. */
  method ParentIsFile(names: map<Path, bool>, p: Path) returns (found: bool)
    ensures found <==> FileParent(names, p)
  {
    var n := |p|;
    while n > 1
      invariant 0 <= n <= |p|
      invariant forall k :: n <= k < |p| && k > 0 && p[..k] in names ==> names[p[..k]]
    {
      n := n - 1;
      if p[..n] in names && !names[p[..n]] {
        assert Above(p[..n], p);
        return true;
      }
    }
    forall q | q != [] && Above(q, p) && q in names ensures names[q] {
      assert q == p[..|q|];
    }
    found := false;
  }

  /** One more member passes exactly when the loop body lets it pass. */
  ghost predicate Passes(ms: seq<Member>, limits: Limits, names: map<Path, bool>, i: nat)
    requires i < |ms|
  {
    && SoundMember(ms[i], limits) && Parts(ms[i].name) !in names && !FileParent(names, Parts(ms[i].name))
    && TotalSize(ms, i + 1) <= limits.expandedBytes
  }

  lemma ParentMember(ms: seq<Member>, limits: Limits, names: map<Path, bool>, i: nat, k: nat)
    requires k < i < |ms| && Checked(ms, limits, i) && NamesOf(names, ms, i)
    requires ms[k].kind.FileMember? && Above(Parts(ms[k].name), Parts(ms[i].name))
    ensures FileParent(names, Parts(ms[i].name))
  {
    assert SoundMember(ms[k], limits);
    hide Parts, Above, TotalSize;
    var q := Parts(ms[k].name);
    var j :| 0 <= j < i && Parts(ms[j].name) == q && names[q] == ms[j].kind.DirMember?;
    assert j == k;
  }

  lemma PassedIsChecked(ms: seq<Member>, limits: Limits, names: map<Path, bool>, i: nat)
    requires i < |ms| && Checked(ms, limits, i) && NamesOf(names, ms, i) && Passes(ms, limits, names, i)
    ensures Checked(ms, limits, i + 1)
  {
    hide Parts, SoundMember, Above, FileParent;
    forall k | 0 <= k < i && ms[k].kind.FileMember? ensures !Above(Parts(ms[k].name), Parts(ms[i].name)) {
      if Above(Parts(ms[k].name), Parts(ms[i].name)) {
        ParentMember(ms, limits, names, i, k);
      }
    }
  }

  lemma CheckedPasses(ms: seq<Member>, limits: Limits, names: map<Path, bool>, i: nat)
    requires i < |ms| && NamesOf(names, ms, i) && Checked(ms, limits, i + 1)
    ensures Passes(ms, limits, names, i)
  {
    assert SoundMember(ms[i], limits);
    hide Parts, SafeName, TotalSize;
    forall q | q != [] && Above(q, Parts(ms[i].name)) && q in names ensures names[q] {
      var k :| 0 <= k < i && Parts(ms[k].name) == q && names[q] == ms[k].kind.DirMember?;
      assert SoundMember(ms[k], limits);
    }
  }

  lemma NamesStep(ms: seq<Member>, names: map<Path, bool>, i: nat)
    requires i < |ms| && NamesOf(names, ms, i) && Parts(ms[i].name) !in names
    ensures NamesOf(names[Parts(ms[i].name) := ms[i].kind.DirMember?], ms, i + 1)
  {
    hide Parts;
    var p := Parts(ms[i].name);
    forall q | q in names
      ensures exists k :: 0 <= k < i + 1 && Parts(ms[k].name) == q && names[q] == ms[k].kind.DirMember?
    {
      var k :| 0 <= k < i && Parts(ms[k].name) == q && names[q] == ms[k].kind.DirMember?;
    }
  }

  lemma NothingChecked(ms: seq<Member>, limits: Limits)
    requires Positive(limits)
    ensures Checked(ms, limits, 0) && NamesOf(map[], ms, 0)
  {
  }

  method FirstPass(ms: seq<Member>, limits: Limits) returns (ok: bool)
    requires Positive(limits)
    ensures ok <==> Checked(ms, limits, |ms|)
  {
    hide Parts, SafeName, Checked, NamesOf, FileParent;
    var expanded := 0;
    var names: map<Path, bool> := map[];
    NothingChecked(ms, limits);
    for i := 0 to |ms|
      invariant expanded == TotalSize(ms, i) <= limits.expandedBytes
      invariant NamesOf(names, ms, i)
      invariant Checked(ms, limits, i)
    {
      var m := ms[i];
      var p := Parts(m.name);
      if Checked(ms, limits, |ms|) {
        CheckedShrinks(ms, limits, i + 1, |ms|);
        CheckedPasses(ms, limits, names, i);
      }
      if !SafeName(m.name) || p in names {
        return false;
      }
      var blocked := ParentIsFile(names, p);
      if blocked || (!m.kind.DirMember? && !m.kind.FileMember?) {
        return false;
      }
      if m.kind.FileMember? {
        if |m.content| > limits.memberBytes {
          return false;
        }
        expanded := expanded + |m.content|;
        if expanded > limits.expandedBytes {
          return false;
        }
      }
      assert TotalSize(ms, i + 1) == expanded;
      assert TotalSize(ms, i + 1) <= limits.expandedBytes;
      PassedIsChecked(ms, limits, names, i);
      NamesStep(ms, names, i);
      names := names[p := m.kind.DirMember?];
    }
    ok := true;
  }

  // ---- the second pass: directories, and files created exclusively ----

  ghost predicate OpenWay(tree: Tree, p: Path) {
    forall q :: q != [] && Leads(q, p) && q in tree ==> tree[q].Dir?
  }

  ghost predicate WithDirs(tree: Tree, p: Path, made: Tree) {
    && (forall q :: q in made <==> q in tree || (q != [] && Leads(q, p)))
    && (forall q :: q in made ==> made[q] == if q in tree then tree[q] else Dir)
  }

  lemma LeadsItself(p: Path)
    ensures Leads(p, p)
  {
  }

  lemma LeadsStep(p: Path)
    requires p != []
    ensures forall q :: Leads(q, p) <==> q == p || Leads(q, p[..|p| - 1])
  {
    forall q ensures Leads(q, p) <==> q == p || Leads(q, p[..|p| - 1]) {
      if Leads(q, p) && q != p {
        assert q == p[..|q|] == p[..|p| - 1][..|q|];
      } else if Leads(q, p[..|p| - 1]) {
        assert q == p[..|q|];
      }
    }
  }

  /** Makes the directory and its parents where they are missing; fails on a file in the way. */
  method MakeDirs(tree: Tree, p: Path) returns (r: Result<Tree>)
    ensures r.Ok? <==> OpenWay(tree, p)
    ensures r.Ok? ==> WithDirs(tree, p, r.value)
  {
    var made := tree;
    for n := 0 to |p|
      invariant OpenWay(tree, p[..n])
      invariant WithDirs(tree, p[..n], made)
    {
      var q := p[..n + 1];
      assert q[..|q| - 1] == p[..n];
      LeadsStep(q);
      if q in tree && tree[q].File? {
        assert Leads(q, p);
        return Rejected;
      }
      if q !in made {
        made := made[q := Dir];
      }
    }
    assert p[..|p|] == p;
    r := Ok(made);
  }

  /** No earlier file stands on the way to a member that passed the first pass. */
  lemma WayIsOpen(ms: seq<Member>, limits: Limits, tree: Tree, i: nat, p: Path)
    requires i < |ms| && Checked(ms, limits, |ms|) && FilesListed(tree, ms, i) && Leads(p, Parts(ms[i].name))
    ensures OpenWay(tree, p)
  {
    hide Parts, Checked, FileAt;
    forall q | q != [] && Leads(q, p) && q in tree ensures tree[q].Dir? {
      NoFileOnWay(ms, limits, i, q);
    }
  }

  lemma NoFileOnWay(ms: seq<Member>, limits: Limits, i: nat, q: Path)
    requires i < |ms| && Checked(ms, limits, |ms|) && Leads(q, Parts(ms[i].name))
    ensures !FileAt(ms, i, q)
  {
    hide Parts, TotalSize, SoundMember;
    assert Above(q, Parts(ms[i].name)) || q == Parts(ms[i].name);
  }

  lemma CoversStep(ms: seq<Member>, i: nat)
    requires i < |ms|
    ensures forall p :: Covers(ms, i + 1, p) <==> Covers(ms, i, p) || (p != [] && Leads(p, Parts(ms[i].name)))
  {
    hide Parts, Leads;
  }

  lemma FileAtStep(ms: seq<Member>, i: nat)
    requires i < |ms|
    ensures forall p :: FileAt(ms, i, p) ==> FileAt(ms, i + 1, p)
    ensures ms[i].kind.FileMember? ==> FileAt(ms, i + 1, Parts(ms[i].name))
  {
    hide Parts;
  }

  lemma DirJoins(ms: seq<Member>, tree: Tree, i: nat, made: Tree)
    requires i < |ms| && IsTreeOf(tree, ms, i) && !ms[i].kind.FileMember? && Parts(ms[i].name) != []
    requires OpenWay(tree, Parts(ms[i].name)) && WithDirs(tree, Parts(ms[i].name), made)
    ensures IsTreeOf(made, ms, i + 1)
  {
    hide Parts, Covers, FileAt, Leads;
    CoversStep(ms, i);
    FileAtStep(ms, i);
    var p := Parts(ms[i].name);
    LeadsItself(p);
    assert Covered(made, ms, i + 1);
    assert FilesListed(made, ms, i + 1);
    assert p in made ==> made[p] == Dir;
    forall k | 0 <= k < i && Parts(ms[k].name) in made ensures made[Parts(ms[k].name)] == NodeOf(ms[k]) {
      MemberInTree(ms, tree, i, k);
    }
  }

  lemma MemberInTree(ms: seq<Member>, tree: Tree, i: nat, k: nat)
    requires k < i <= |ms| && Covered(tree, ms, i)
    ensures Parts(ms[k].name) != [] ==> Parts(ms[k].name) in tree
  {
    hide Parts;
    assert Leads(Parts(ms[k].name), Parts(ms[k].name));
  }

  lemma FileJoins(ms: seq<Member>, tree: Tree, i: nat, made: Tree)
    requires i < |ms| && IsTreeOf(tree, ms, i) && ms[i].kind.FileMember? && Parts(ms[i].name) != []
    requires WithDirs(tree, Parts(ms[i].name)[..|Parts(ms[i].name)| - 1], made) && Parts(ms[i].name) !in made
    ensures IsTreeOf(made[Parts(ms[i].name) := NodeOf(ms[i])], ms, i + 1)
  {
    hide Parts, Covers, FileAt, Leads;
    CoversStep(ms, i);
    FileAtStep(ms, i);
    LeadsStep(Parts(ms[i].name));
    var p := Parts(ms[i].name);
    var t := made[p := NodeOf(ms[i])];
    assert Covered(t, ms, i + 1);
    assert FilesListed(t, ms, i + 1);
    forall k | 0 <= k < i && Parts(ms[k].name) in t ensures t[Parts(ms[k].name)] == NodeOf(ms[k]) {
      MemberInTree(ms, tree, i, k);
    }
  }

  /** The exclusive create fails exactly on a file placed above an earlier member. */
  lemma CreateFails(ms: seq<Member>, limits: Limits, tree: Tree, i: nat, made: Tree)
    requires i < |ms| && Checked(ms, limits, |ms|) && Covered(tree, ms, i) && Parts(ms[i].name) != []
    requires WithDirs(tree, Parts(ms[i].name)[..|Parts(ms[i].name)| - 1], made)
    ensures Parts(ms[i].name) in made <==> exists k :: 0 <= k < i && Above(Parts(ms[i].name), Parts(ms[k].name))
  {
    var p := Parts(ms[i].name);
    hide Parts, TotalSize, SoundMember, NoFileAboveLater;
    if p in made {
      assert Covers(ms, i, p);
      var k :| 0 <= k < i && Leads(p, Parts(ms[k].name));
      assert Parts(ms[k].name) != Parts(ms[i].name);
    }
    if k :| 0 <= k < i && Above(p, Parts(ms[k].name)) {
      assert Leads(p, Parts(ms[k].name));
    }
  }

  method SecondPass(ms: seq<Member>, limits: Limits) returns (r: Result<Tree>)
    requires Checked(ms, limits, |ms|)
    ensures r.Ok? <==> NoFileAboveEarlier(ms, |ms|)
    ensures r.Ok? ==> IsTreeOf(r.value, ms, |ms|)
  {
    hide Parts, IsTreeOf, OpenWay, WithDirs, TotalSize, Leads, Checked;
    var tree: Tree := map[];
    EmptyTree(ms);
    for i := 0 to |ms|
      invariant IsTreeOf(tree, ms, i)
      invariant NoFileAboveEarlier(ms, i)
    {
      var p := Parts(ms[i].name);
      MemberIsSound(ms, limits, i);
      TreeParts(tree, ms, i);
      if ms[i].kind.DirMember? {
        LeadsItself(p);
        WayIsOpen(ms, limits, tree, i, p);
        var made := MakeDirs(tree, p);
        DirJoins(ms, tree, i, made.value);
        tree := made.value;
      } else {
        LeadsItself(p[..|p| - 1]);
        LeadsStep(p);
        WayIsOpen(ms, limits, tree, i, p[..|p| - 1]);
        var made := MakeDirs(tree, p[..|p| - 1]);
        CreateFails(ms, limits, tree, i, made.value);
        if p in made.value {
          return Rejected;
        }
        FileJoins(ms, tree, i, made.value);
        tree := made.value[p := File(ms[i].content, AnyExecute(ms[i].mode))];
      }
    }
    r := Ok(tree);
  }

  lemma EmptyTree(ms: seq<Member>)
    ensures IsTreeOf(map[], ms, 0)
  {
  }

  lemma MemberIsSound(ms: seq<Member>, limits: Limits, i: nat)
    requires i < |ms| && Checked(ms, limits, |ms|)
    ensures SoundMember(ms[i], limits) && Parts(ms[i].name) != []
  {
  }

  lemma TreeParts(tree: Tree, ms: seq<Member>, n: nat)
    requires n <= |ms| && IsTreeOf(tree, ms, n)
    ensures Covered(tree, ms, n) && FilesListed(tree, ms, n)
  {
  }

  /**
   Extraction into an empty directory succeeds exactly on acceptable archives,
   whatever the member order, and builds exactly the members' tree.
   */
  method SafeExtract(ms: seq<Member>, limits: Limits) returns (r: Result<Tree>)
    ensures r.Ok? <==> Acceptable(ms, limits)
    ensures r.Ok? ==> IsTreeOf(r.value, ms, |ms|)
  {
    if limits.members < 1 || limits.memberBytes < 1 || limits.expandedBytes < 1 || |ms| > limits.members {
      return Rejected;
    }
    var ok := FirstPass(ms, limits);
    if !ok {
      return Rejected;
    }
    r := SecondPass(ms, limits);
  }

  // ---- nothing leaves the destination ----

  lemma {:induction false} SplitHasNoSlash(name: string)
    ensures forall i :: 0 <= i < |Split(name)| ==> '/' !in Split(name)[i]
  {
    if name != "" {
      SplitHasNoSlash(name[1..]);
    }
  }

  lemma {:induction false} SignificantParts(parts: seq<string>)
    requires forall i :: 0 <= i < |parts| ==> '/' !in parts[i]
    ensures forall i :: 0 <= i < |Significant(parts)| ==>
      Significant(parts)[i] != "" && Significant(parts)[i] != "." && '/' !in Significant(parts)[i]
  {
    if parts != [] {
      SignificantParts(parts[1..]);
    }
  }

  function Rejoined(parts: seq<string>): string
    requires parts != []
  {
    if |parts| == 1 then parts[0] else parts[0] + "/" + Rejoined(parts[1..])
  }

  /** A name is its parts with slashes between them. */
  lemma {:induction false} SplitRejoins(name: string)
    ensures Rejoined(Split(name)) == name
  {
    if name != "" {
      SplitRejoins(name[1..]);
      assert name == [name[0]] + name[1..];
    }
  }

  /** Only empty parts and single dots are dropped. */
  lemma {:induction false} SignificantKeeps(parts: seq<string>)
    ensures forall part :: part in Significant(parts) <==> part in parts && part != "" && part != "."
  {
    if parts != [] {
      SignificantKeeps(parts[1..]);
      assert parts == [parts[0]] + parts[1..];
    }
  }

  lemma SafeIsGood(name: string)
    requires SafeName(name)
    ensures GoodPath(Parts(name))
  {
    SplitHasNoSlash(name);
    SignificantParts(Split(name));
  }

  lemma PrefixIsGood(p: Path, q: Path)
    requires p != [] && Leads(p, q) && GoodPath(q)
    ensures GoodPath(p)
  {
    assert forall k :: 0 <= k < |p| ==> p[k] == q[k];
  }

  lemma PathIsGood(ms: seq<Member>, limits: Limits, i: nat, p: Path)
    requires p != [] && i < |ms| && SoundMember(ms[i], limits) && Leads(p, Parts(ms[i].name))
    ensures GoodPath(p)
  {
    hide Parts, Leads, GoodPath;
    SafeIsGood(ms[i].name);
    PrefixIsGood(p, Parts(ms[i].name));
  }

  lemma AboveLeads(f: Path, p: Path, q: Path)
    requires Above(f, p) && Leads(p, q)
    ensures Above(f, q)
  {
  }

  /** Every extracted path is a plain relative path: no "..", no ".", no separator, never the root itself. */
  lemma EverythingInside(ms: seq<Member>, limits: Limits, tree: Tree)
    requires Acceptable(ms, limits) && IsTreeOf(tree, ms, |ms|)
    ensures forall p :: p in tree ==> GoodPath(p)
    ensures TotalSize(ms, |ms|) <= limits.expandedBytes
    ensures forall i, p :: 0 <= i < |ms| && ms[i].kind.FileMember? && p in tree ==> !Above(Parts(ms[i].name), p)
  {
    hide Parts, TotalSize, GoodPath, SoundMember, Leads, Above;
    forall p | p in tree ensures GoodPath(p) {
      var i :| 0 <= i < |ms| && Leads(p, Parts(ms[i].name));
      PathIsGood(ms, limits, i, p);
    }
    forall i, p | 0 <= i < |ms| && ms[i].kind.FileMember? && p in tree ensures !Above(Parts(ms[i].name), p) {
      var j :| 0 <= j < |ms| && Leads(p, Parts(ms[j].name));
      if Above(Parts(ms[i].name), p) {
        AboveLeads(Parts(ms[i].name), p, Parts(ms[j].name));
        assert false;
      }
    }
  }

  // ---- packing a directory ----

  /** `shared` is the inode of a file that has several names. */
  datatype Entry = DirEntry | FileEntry(content: Bytes, mode: nat, shared: Option<nat>) | SymlinkEntry | SpecialEntry

  type Source = map<Path, Entry>

  predicate GoodPart(part: string) {
    part != "" && part != "." && part != ".." && '/' !in part
  }

  predicate GoodPath(p: Path) {
    p != [] && forall i :: 0 <= i < |p| ==> GoodPart(p[i])
  }

  /** What a directory walk can return: good names, every parent a directory. */
  ghost predicate WellFormed(src: Source) {
    && (forall p :: p in src ==> GoodPath(p))
    && (forall p, q :: p in src && q != [] && Above(q, p) ==> q in src && src[q].DirEntry?)
  }

  predicate Bytecode(part: string) {
    part == "__pycache__" || (|part| >= 4 && part[|part| - 4..] == ".pyc")
  }

  /** The bytecode cache, and everything with a bytecode suffix. */
  lemma BytecodeIs(part: string)
    ensures Bytecode(part) <==> part == "__pycache__" || exists stem: string :: part == stem + ".pyc"
  {
    if |part| >= 4 && part[|part| - 4..] == ".pyc" {
      assert part == part[..|part| - 4] + ".pyc";
    }
    if stem: string :| part == stem + ".pyc" {
      assert part[|part| - 4..] == ".pyc";
    }
  }

  predicate Packable(p: Path) {
    forall i :: 0 <= i < |p| ==> !Bytecode(p[i])
  }

  function Join(p: Path): string
    requires p != []
  {
    if |p| == 1 then p[0] else p[0] + "/" + Join(p[1..])
  }

  /** The order of a sorted directory walk. */
  ghost predicate SortedPaths(paths: seq<Path>) {
    forall i, j :: 0 <= i < j < |paths| ==> PathLess(paths[i], paths[j])
  }

  ghost predicate Listing(keys: set<Path>, paths: seq<Path>) {
    SortedPaths(paths) && forall p :: p in paths <==> p in keys
  }

  /** The k-th path names that inode. */
  predicate NamesInode(src: Source, packed: seq<Path>, k: nat, inode: nat) {
    k < |packed| && packed[k] in src && src[packed[k]].FileEntry? && src[packed[k]].shared == Some(inode)
  }

  /** The archive already holds the file under an earlier name. */
  predicate Linked(src: Source, packed: seq<Path>, i: nat)
    requires i < |packed| && packed[i] in src
  {
    var e := src[packed[i]];
    e.FileEntry? && e.shared.Some? && exists k :: 0 <= k < i && NamesInode(src, packed, k, e.shared.value)
  }

  /** A later name of a file already in the archive becomes a link without content. */
  function MemberOf(p: Path, e: Entry, linked: bool): Member
    requires p != []
  {
    match e
    case FileEntry(content, mode, _) =>
      if linked then Member(Join(p), LinkMember, [], mode) else Member(Join(p), FileMember, content, mode)
    case _ => Member(Join(p), DirMember, [], 0)
  }

  /** The paths a loop over a listing does not skip. */
  function Keep(paths: seq<Path>, keep: Path -> bool): seq<Path> {
    if paths == [] then []
    else Keep(paths[..|paths| - 1], keep) + if keep(paths[|paths| - 1]) then [paths[|paths| - 1]] else []
  }

  function PackedPaths(paths: seq<Path>): seq<Path> {
    Keep(paths, Packable)
  }

  lemma {:induction false} KeepMembers(paths: seq<Path>, keep: Path -> bool)
    ensures forall p :: p in Keep(paths, keep) <==> p in paths && keep(p)
  {
    if paths != [] {
      KeepMembers(paths[..|paths| - 1], keep);
      assert paths == paths[..|paths| - 1] + [paths[|paths| - 1]];
    }
  }

  lemma {:induction false} KeepSorted(paths: seq<Path>, keep: Path -> bool)
    requires SortedPaths(paths)
    ensures SortedPaths(Keep(paths, keep))
  {
    hide PathLess;
    if paths != [] {
      var front, last := paths[..|paths| - 1], paths[|paths| - 1];
      KeepSorted(front, keep);
      KeepMembers(front, keep);
      forall i | 0 <= i < |Keep(front, keep)| ensures PathLess(Keep(front, keep)[i], last) {
        assert Keep(front, keep)[i] in front;
        var k :| 0 <= k < |front| && front[k] == Keep(front, keep)[i];
        assert paths[k] == front[k];
      }
    }
  }

  lemma {:induction false} KeepMonotone(paths: seq<Path>, keep: Path -> bool, i: nat)
    requires i <= |paths|
    ensures Keep(paths[..i], keep) <= Keep(paths, keep)
  {
    if i < |paths| {
      var front := paths[..|paths| - 1];
      KeepMonotone(front, keep, i);
      assert front[..i] == paths[..i];
    } else {
      assert paths[..i] == paths;
    }
  }

  lemma KeepStep(paths: seq<Path>, keep: Path -> bool, i: nat)
    requires i < |paths|
    ensures Keep(paths[..i + 1], keep) == Keep(paths[..i], keep) + if keep(paths[i]) then [paths[i]] else []
    ensures Keep(paths[..i + 1], keep) <= Keep(paths, keep)
  {
    assert paths[..i + 1][..i] == paths[..i];
    KeepMonotone(paths, keep, i + 1);
  }

  lemma PackedPathsListed(paths: seq<Path>)
    requires SortedPaths(paths)
    ensures forall p :: p in PackedPaths(paths) <==> p in paths && Packable(p)
    ensures SortedPaths(PackedPaths(paths))
  {
    KeepMembers(paths, Packable);
    KeepSorted(paths, Packable);
  }

  function Archive(src: Source, packed: seq<Path>): (ms: seq<Member>)
    requires forall p :: p in packed ==> p in src && p != []
  {
    seq(|packed|, i requires 0 <= i < |packed| => MemberOf(packed[i], src[packed[i]], Linked(src, packed, i)))
  }

  function EntrySize(e: Entry): nat {
    if e.FileEntry? then |e.content| else 0
  }

  /** What packing counts against its limit: every name at the size of its file. */
  function SourceSize(src: Source, packed: seq<Path>): nat
    requires forall p :: p in packed ==> p in src
  {
    if packed == [] then 0
    else SourceSize(src, packed[..|packed| - 1]) + EntrySize(src[packed[|packed| - 1]])
  }

  /** Every packed name with the contents of its file, end to end. */
  function PackedContents(src: Source, packed: seq<Path>): Bytes
    requires forall p :: p in packed ==> p in src
  {
    if packed == [] then []
    else
      var last := src[packed[|packed| - 1]];
      PackedContents(src, packed[..|packed| - 1]) + match last case FileEntry(content, _, _) => content case _ => []
  }

  lemma {:induction false} SourceSizeIs(src: Source, packed: seq<Path>)
    requires forall p :: p in packed ==> p in src
    ensures SourceSize(src, packed) == |PackedContents(src, packed)|
  {
    if packed != [] {
      SourceSizeIs(src, packed[..|packed| - 1]);
    }
  }

  predicate Regular(e: Entry) {
    e.DirEntry? || e.FileEntry?
  }

  datatype ByteLimit = Unlimited | AtMost(bytes: int)

  predicate Within(limit: ByteLimit, total: int) {
    limit.AtMost? ==> total <= limit.bytes
  }

  /** When packing succeeds: no packable link or special file, and within the byte limit. */
  ghost predicate Packs(src: Source, paths: seq<Path>, limit: ByteLimit)
    requires WellFormed(src) && Listing(src.Keys, paths)
  {
    PackedPathsListed(paths);
    && (limit.AtMost? ==> limit.bytes >= 1) && Within(limit, SourceSize(src, PackedPaths(paths)))
    && forall i :: 0 <= i < |paths| && Packable(paths[i]) ==> Regular(src[paths[i]])
  }

  lemma ListedInSource(src: Source, paths: seq<Path>)
    requires WellFormed(src) && Listing(src.Keys, paths)
    ensures forall p :: p in paths ==> p in src && p != []
    ensures forall p :: p in PackedPaths(paths) ==> p in src && p != []
  {
    PackedPathsListed(paths);
  }

  /** Walks the sorted listing once. */
  method PackDirectory(src: Source, paths: seq<Path>, limit: ByteLimit) returns (r: Result<seq<Member>>)
    requires WellFormed(src) && Listing(src.Keys, paths)
    ensures r.Ok? <==> Packs(src, paths, limit)
    ensures forall p :: p in PackedPaths(paths) ==> p in src && p != []
    ensures r.Ok? ==> r.value == Archive(src, PackedPaths(paths))
  {
    hide PackedPaths, Packable, WellFormed, Listing, MemberOf, Linked, SourceSize, InodesOf;
    ListedInSource(src, paths);
    ghost var packed := PackedPaths(paths);
    ghost var all := Archive(src, packed);
    if limit.AtMost? && limit.bytes < 1 {
      return Rejected;
    }
    var ms: seq<Member> := [];
    var inodes: set<nat> := {};
    var total := 0;
    NothingPacked(paths);
    NothingCounted(src, packed);
    for i := 0 to |paths|
      invariant |ms| <= |packed| && PackedPaths(paths[..i]) == packed[..|ms|]
      invariant ms == all[..|ms|] && total == SourceSize(src, packed[..|ms|])
      invariant InodesOf(src, packed, |ms|, inodes)
      invariant Within(limit, total)
      invariant forall k :: 0 <= k < i && Packable(paths[k]) ==> Regular(src[paths[k]])
    {
      var p := paths[i];
      PackedPrefix(paths, i);
      if Packable(p) {
        if !Regular(src[p]) {
          return Rejected;
        }
        ghost var n := |ms|;
        assert packed[..n + 1] == packed[..n] + [p];
        assert packed[n] == p;
        var linked := src[p].FileEntry? && src[p].shared.Some? && src[p].shared.value in inodes;
        InodesStep(src, packed, n, inodes);
        if src[p].FileEntry? && src[p].shared.Some? {
          inodes := inodes + {src[p].shared.value};
        }
        ms := ms + [MemberOf(p, src[p], linked)];
        total := total + EntrySize(src[p]);
        SourceStep(src, packed, n);
        if limit.AtMost? && total > limit.bytes {
          return Rejected;
        }
      }
    }
    assert paths[..|paths|] == paths && packed[..|ms|] == packed;
    r := Ok(ms);
  }

  lemma NothingCounted(src: Source, packed: seq<Path>)
    requires forall p :: p in packed ==> p in src
    ensures SourceSize(src, packed[..0]) == 0 && InodesOf(src, packed, 0, {})
  {
  }

  lemma SourceStep(src: Source, packed: seq<Path>, n: nat)
    requires n < |packed| && forall p :: p in packed ==> p in src
    ensures SourceSize(src, packed[..n + 1]) == SourceSize(src, packed[..n]) + EntrySize(src[packed[n]])
    ensures SourceSize(src, packed[..n + 1]) <= SourceSize(src, packed)
  {
    assert packed[..n + 1][..n] == packed[..n];
    SourceOnlyGrows(src, packed, n + 1);
  }

  /** The inodes of the first n packed files. */
  ghost predicate InodesOf(src: Source, packed: seq<Path>, n: nat, inodes: set<nat>) {
    forall inode :: inode in inodes <==> exists k :: 0 <= k < n && NamesInode(src, packed, k, inode)
  }

  lemma InodesStep(src: Source, packed: seq<Path>, n: nat, inodes: set<nat>)
    requires n < |packed| && packed[n] in src && InodesOf(src, packed, n, inodes)
    ensures var e := src[packed[n]];
      && (Linked(src, packed, n) <==> e.FileEntry? && e.shared.Some? && e.shared.value in inodes)
      && InodesOf(src, packed, n + 1, if e.FileEntry? && e.shared.Some? then inodes + {e.shared.value} else inodes)
  {
    var e := src[packed[n]];
    var more := if e.FileEntry? && e.shared.Some? then inodes + {e.shared.value} else inodes;
    forall inode ensures inode in more <==> exists k :: 0 <= k < n + 1 && NamesInode(src, packed, k, inode) {
      if exists k :: 0 <= k < n + 1 && NamesInode(src, packed, k, inode) {
        var k :| 0 <= k < n + 1 && NamesInode(src, packed, k, inode);
        if k < n {
          assert inode in inodes;
        }
      }
      if inode in more && inode !in inodes {
        assert NamesInode(src, packed, n, inode);
      }
    }
  }

  lemma {:induction false} SourceOnlyGrows(src: Source, packed: seq<Path>, n: nat)
    requires n <= |packed| && forall p :: p in packed ==> p in src
    ensures SourceSize(src, packed[..n]) <= SourceSize(src, packed)
    decreases |packed|
  {
    if n < |packed| {
      var front := packed[..|packed| - 1];
      SourceOnlyGrows(src, front, n);
      assert front[..n] == packed[..n];
    } else {
      assert packed[..n] == packed;
    }
  }

  lemma NothingPacked(paths: seq<Path>)
    ensures PackedPaths(paths[..0]) == []
  {
  }

  lemma PackedPrefix(paths: seq<Path>, i: nat)
    requires i < |paths|
    ensures PackedPaths(paths[..i + 1]) == PackedPaths(paths[..i]) + if Packable(paths[i]) then [paths[i]] else []
    ensures PackedPaths(paths[..i + 1]) <= PackedPaths(paths)
  {
    KeepStep(paths, Packable, i);
  }

  // ---- names survive the trip ----

  lemma {:induction false} SplitPart(part: string, rest: string)
    requires '/' !in part
    ensures Split(part) == [part]
    ensures Split(part + "/" + rest) == [part] + Split(rest)
  {
    var whole := part + "/" + rest;
    if part == "" {
      assert whole[1..] == rest && whole[0] == '/';
    } else {
      SplitPart(part[1..], rest);
      assert whole[1..] == part[1..] + "/" + rest && whole[0] == part[0];
      assert [part[0]] + part[1..] == part;
    }
  }

  lemma {:induction false} SplitJoin(p: Path)
    requires GoodPath(p)
    ensures Split(Join(p)) == p && Significant(p) == p && !Absolute(Join(p))
  {
    hide Split;
    assert GoodPart(p[0]);
    if |p| == 1 {
      SplitPart(p[0], "");
      assert p[1..] == [];
    } else {
      assert GoodPath(p[1..]) by {
        assert forall i :: 0 <= i < |p[1..]| ==> p[1..][i] == p[i + 1];
      }
      SplitJoin(p[1..]);
      SplitPart(p[0], Join(p[1..]));
    }
    assert p == [p[0]] + p[1..];
  }

  lemma PartsOfPacked(p: Path)
    requires GoodPath(p)
    ensures Parts(Join(p)) == p && SafeName(Join(p))
  {
    SplitJoin(p);
    assert forall i :: 0 <= i < |p| ==> GoodPart(p[i]);
  }

  // ---- the round trip ----

  ghost predicate WithinLimits(ms: seq<Member>, limits: Limits) {
    && Positive(limits) && |ms| <= limits.members && TotalSize(ms, |ms|) <= limits.expandedBytes
    && forall i :: 0 <= i < |ms| && ms[i].kind.FileMember? ==> |ms[i].content| <= limits.memberBytes
  }

  /** A source that packs: what PackDirectory needs of it, and what its success says. */
  ghost predicate PackedFrom(src: Source, packed: seq<Path>) {
    && WellFormed(src) && SortedPaths(packed)
    && (forall p :: p in packed <==> p in src && Packable(p))
    && (forall p :: p in packed ==> p != [] && Regular(src[p]))
  }

  lemma PackedFromListing(src: Source, paths: seq<Path>, limit: ByteLimit)
    requires WellFormed(src) && Listing(src.Keys, paths) && Packs(src, paths, limit)
    ensures PackedFrom(src, PackedPaths(paths))
  {
    PackedPathsListed(paths);
    forall p | p in PackedPaths(paths) ensures p != [] && Regular(src[p]) {
      assert p in paths && GoodPath(p);
      var k :| 0 <= k < |paths| && paths[k] == p;
    }
  }

  lemma ArchiveNames(src: Source, packed: seq<Path>, i: nat)
    requires PackedFrom(src, packed) && i < |packed|
    ensures var m := Archive(src, packed)[i];
      && Parts(m.name) == packed[i] && SafeName(m.name)
      && (m.kind.FileMember? <==> src[packed[i]].FileEntry? && !Linked(src, packed, i))
      && (m.kind.DirMember? <==> src[packed[i]].DirEntry?)
      && (!Linked(src, packed, i) ==> NodeOf(m) == Restored(src[packed[i]]))
  {
    assert packed[i] in packed;
    PartsOfPacked(packed[i]);
    hide Parts, SafeName, Join, Linked;
  }

  lemma {:induction false} SortedDistinct(paths: seq<Path>, i: nat, j: nat)
    requires SortedPaths(paths) && i < j < |paths|
    ensures paths[i] != paths[j]
  {
    PathIrreflexive(paths[i]);
  }

  /** No file to be packed has a second name to be packed. */
  ghost predicate Unlinked(src: Source) {
    forall p, q :: p in src && q in src && p != q && Packable(p) && Packable(q) ==> !SameFile(src[p], src[q])
  }

  predicate SameFile(e: Entry, f: Entry) {
    e.FileEntry? && f.FileEntry? && e.shared.Some? && e.shared == f.shared
  }

  lemma LinkHasTwoNames(src: Source, packed: seq<Path>, i: nat)
    requires PackedFrom(src, packed) && i < |packed| && packed[i] in src && Linked(src, packed, i)
    ensures !Unlinked(src)
  {
    hide PathLess, Packable, WellFormed;
    var k :| 0 <= k < i && NamesInode(src, packed, k, src[packed[i]].shared.value);
    SortedDistinct(packed, k, i);
    assert packed[i] in packed && packed[k] in packed;
    assert SameFile(src[packed[k]], src[packed[i]]);
  }

  lemma TwoNamesLink(src: Source, packed: seq<Path>, i: nat, j: nat)
    requires i < j < |packed| && packed[i] in src && packed[j] in src && SameFile(src[packed[i]], src[packed[j]])
    ensures Linked(src, packed, j)
  {
    assert NamesInode(src, packed, i, src[packed[j]].shared.value);
  }

  lemma LinkedIff(src: Source, packed: seq<Path>)
    requires PackedFrom(src, packed)
    ensures (exists i :: 0 <= i < |packed| && Linked(src, packed, i)) <==> !Unlinked(src)
  {
    hide SortedPaths, Packable, WellFormed, Linked, Regular;
    if i :| 0 <= i < |packed| && Linked(src, packed, i) {
      LinkHasTwoNames(src, packed, i);
    }
    if !Unlinked(src) {
      var p, q :| p in src && q in src && p != q && Packable(p) && Packable(q) && SameFile(src[p], src[q]);
      assert p in packed && q in packed;
      var i :| 0 <= i < |packed| && packed[i] == p;
      var j :| 0 <= j < |packed| && packed[j] == q;
      if i < j {
        TwoNamesLink(src, packed, i, j);
      } else {
        TwoNamesLink(src, packed, j, i);
      }
    }
  }

  /** Names, distinctness and file parents are always in order. */
  lemma PackedNamesAreSound(src: Source, packed: seq<Path>)
    requires PackedFrom(src, packed)
    ensures var ms := Archive(src, packed);
      && Distinct(ms, |ms|) && NoFileAboveLater(ms, |ms|) && NoFileAboveEarlier(ms, |ms|)
      && forall i :: 0 <= i < |ms| ==> SafeName(ms[i].name)
  {
    hide Parts, SafeName, PathLess, TotalSize, MemberOf, Linked, Packable;
    var ms := Archive(src, packed);
    forall i | 0 <= i < |ms| ensures Parts(ms[i].name) == packed[i] && SafeName(ms[i].name) &&
        (ms[i].kind.FileMember? ==> src[packed[i]].FileEntry?)
    {
      ArchiveNames(src, packed, i);
    }
    forall i, j | 0 <= i < j < |packed| ensures packed[i] != packed[j] {
      SortedDistinct(packed, i, j);
    }
    forall i, j | 0 <= i < |ms| && 0 <= j < |ms| && ms[i].kind.FileMember? ensures !Above(packed[i], packed[j]) {
      assert packed[i] in packed && packed[j] in packed;
    }
  }

  /** No member is a link exactly when no packed file has a second packed name. */
  lemma PackedKinds(src: Source, packed: seq<Path>)
    requires PackedFrom(src, packed)
    ensures var ms := Archive(src, packed);
      (forall i :: 0 <= i < |ms| ==> ms[i].kind.FileMember? || ms[i].kind.DirMember?) <==> Unlinked(src)
  {
    hide Parts, SafeName, PathLess, MemberOf, Linked, Packable, Unlinked;
    var ms := Archive(src, packed);
    LinkedIff(src, packed);
    forall i | 0 <= i < |ms| ensures (ms[i].kind.FileMember? || ms[i].kind.DirMember?) <==> !Linked(src, packed, i) {
      ArchiveNames(src, packed, i);
      assert packed[i] in packed;
      LinkedIsFile(src, packed, i);
    }
  }

  lemma LinkedIsFile(src: Source, packed: seq<Path>, i: nat)
    requires i < |packed| && packed[i] in src
    ensures Linked(src, packed, i) ==> src[packed[i]].FileEntry?
  {
  }

  /** A packed archive is acceptable exactly when it keeps within the limits and packed no file twice. */
  lemma PackedIsAcceptable(src: Source, packed: seq<Path>, limits: Limits)
    requires PackedFrom(src, packed)
    ensures Acceptable(Archive(src, packed), limits) <==> WithinLimits(Archive(src, packed), limits) && Unlinked(src)
  {
    hide SafeName, TotalSize, Archive, Distinct, NoFileAboveLater, NoFileAboveEarlier, Unlinked, PackedFrom;
    PackedNamesAreSound(src, packed);
    PackedKinds(src, packed);
  }

  function Restored(e: Entry): Node {
    if e.FileEntry? then File(e.content, AnyExecute(e.mode)) else Dir
  }

  /** Same files and directories, contents and executability, without the bytecode. */
  ghost predicate Restores(src: Source, tree: Tree) {
    && (forall p :: p in tree <==> p in src && Packable(p))
    && (forall p :: p in tree ==> tree[p] == Restored(src[p]))
  }

  lemma PackableParent(src: Source, packed: seq<Path>, p: Path, q: Path)
    requires PackedFrom(src, packed) && p in packed && q != [] && Leads(q, p)
    ensures q in packed
  {
    assert q == p || Above(q, p);
    assert forall i :: 0 <= i < |q| ==> q[i] == p[i];
  }

  lemma RestoredPath(src: Source, packed: seq<Path>, tree: Tree, p: Path)
    requires PackedFrom(src, packed) && IsTreeOf(tree, Archive(src, packed), |packed|)
    ensures p in tree <==> p in packed
  {
    hide Parts, Join, SafeName, TotalSize, MemberOf, Packable, WellFormed, AnyExecute, SortedPaths, Leads, Linked;
    hide NodesMatch, FilesListed;
    var ms := Archive(src, packed);
    if p in tree {
      var i :| 0 <= i < |ms| && Leads(p, Parts(ms[i].name));
      ArchiveNames(src, packed, i);
      PackableParent(src, packed, packed[i], p);
    }
    if p in packed {
      var i :| 0 <= i < |packed| && packed[i] == p;
      ArchiveNames(src, packed, i);
      LeadsItself(p);
      assert Covers(ms, |ms|, p);
    }
  }

  lemma RestoredNode(src: Source, packed: seq<Path>, tree: Tree, i: nat)
    requires PackedFrom(src, packed) && IsTreeOf(tree, Archive(src, packed), |packed|)
    requires i < |packed| && packed[i] in tree && !Linked(src, packed, i)
    ensures tree[packed[i]] == Restored(src[packed[i]])
  {
    hide Parts, Join, SafeName, TotalSize, MemberOf, Packable, WellFormed, AnyExecute, SortedPaths, Leads, Linked;
    hide Covered;
    var ms := Archive(src, packed);
    ArchiveNames(src, packed, i);
    assert Parts(ms[i].name) in tree;
  }

  /** Packing and then extracting restores the directory, whenever extraction succeeds. */
  lemma RoundTrip(src: Source, packed: seq<Path>, limits: Limits, tree: Tree)
    requires PackedFrom(src, packed) && Acceptable(Archive(src, packed), limits)
    requires IsTreeOf(tree, Archive(src, packed), |packed|)
    ensures Restores(src, tree)
  {
    hide IsTreeOf, Archive, Packable, WellFormed, SortedPaths, Restored, Acceptable, Unlinked, Linked;
    PackedIsAcceptable(src, packed, limits);
    LinkedIff(src, packed);
    forall p ensures p in tree <==> p in packed {
      RestoredPath(src, packed, tree, p);
    }
    forall p | p in tree ensures tree[p] == Restored(src[p]) {
      var i :| 0 <= i < |packed| && packed[i] == p;
      RestoredNode(src, packed, tree, i);
    }
  }

  /** A package on its way from one machine to another: it arrives whole, or not at all. */
  method PackThenExtract(src: Source, paths: seq<Path>, limit: ByteLimit, limits: Limits) returns (r: Result<Tree>)
    requires WellFormed(src) && Listing(src.Keys, paths)
    ensures forall p :: p in PackedPaths(paths) ==> p in src && p != []
    ensures r.Ok? <==>
      Packs(src, paths, limit) && WithinLimits(Archive(src, PackedPaths(paths)), limits) && Unlinked(src)
    ensures r.Ok? ==> Restores(src, r.value)
  {
    hide IsTreeOf, PackedPaths, Packable, Acceptable, Unlinked, WithinLimits, Packs, Restores;
    var packed := PackDirectory(src, paths, limit);
    if packed.Rejected? {
      return Rejected;
    }
    PackedFromListing(src, paths, limit);
    PackedIsAcceptable(src, PackedPaths(paths), limits);
    r := SafeExtract(packed.value, limits);
    if r.Ok? {
      RoundTrip(src, PackedPaths(paths), limits, r.value);
    }
  }

  // ---- a directory that packs and cannot be extracted ----

  const TWO_NAMES: Source := map[["a"] := FileEntry([], 420, Some(1)), ["b"] := FileEntry([], 420, Some(1))]

  /** Two names of one empty file: packing succeeds, and no limits are large enough to extract the archive. */
  lemma TwoNamesAreRejected(limits: Limits)
    ensures var paths: seq<Path> := [["a"], ["b"]];
      && WellFormed(TWO_NAMES) && Listing(TWO_NAMES.Keys, paths) && Packs(TWO_NAMES, paths, Unlimited)
      && PackedPaths(paths) == paths && !Acceptable(Archive(TWO_NAMES, paths), limits)
  {
    hide WellFormed, Listing, PackedPaths, Acceptable, Archive, Unlinked, WithinLimits;
    TwoNamesPack();
    PackedFromListing(TWO_NAMES, [["a"], ["b"]], Unlimited);
    PackedIsAcceptable(TWO_NAMES, [["a"], ["b"]], limits);
  }

  lemma TwoNamesListed()
    ensures var paths: seq<Path> := [["a"], ["b"]];
      && WellFormed(TWO_NAMES) && Listing(TWO_NAMES.Keys, paths) && Packable(["a"]) && Packable(["b"])
  {
    var a, b: Path := ["a"], ["b"];
    assert GoodPath(a) && GoodPath(b) && PathLess(a, b);
    assert Packable(a) && Packable(b);
    assert forall q: Path, p: Path :: p in TWO_NAMES && Above(q, p) ==> |q| == 0;
  }

  lemma TwoNamesPack()
    ensures var paths: seq<Path> := [["a"], ["b"]];
      && WellFormed(TWO_NAMES) && Listing(TWO_NAMES.Keys, paths) && PackedPaths(paths) == paths
      && Packs(TWO_NAMES, paths, Unlimited) && !Unlinked(TWO_NAMES)
  {
    hide PathLess, Packable, Keep, PackedPaths, WellFormed, SortedPaths, SourceSize;
    var a, b: Path := ["a"], ["b"];
    var paths := [a, b];
    TwoNamesListed();
    NothingPacked(paths);
    PackedPrefix(paths, 0);
    PackedPrefix(paths, 1);
    assert paths[..2] == paths;
    assert a in TWO_NAMES && b in TWO_NAMES && a != b && SameFile(TWO_NAMES[a], TWO_NAMES[b]);
  }
}
