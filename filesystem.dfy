/** The filesystem the engine reads and changes, and the parts of `pathlib`
    it relies on: a path's name, parent, suffix and suffixes, and the
    abstract effect of mkdir, unlink, hard link and copy. */
module FileSystem {
  import opened Common

  /** A directory, or a regular file with its identity (inode) and bytes. */
  datatype Node = Dir | File(id: nat, content: seq<int>)

  /** The whole tree as a value; `nextId` is the identity a new copy receives. */
  datatype Snapshot = Snapshot(nodes: map<Path, Node>, nextId: nat)

  /** The state after an operation and the failure, if any, that stopped it. */
  datatype Outcome = Outcome(state: Snapshot, error: Option<Error>)

  function Parent(p: Path): Path
  {
    if p == [] then [] else p[..|p| - 1]
  }

  /** `Path.name`: the last component. */
  function Name(p: Path): string
  {
    if p == [] then "" else p[|p| - 1]
  }

  /** `p / name` for a single-component name: `pathlib` drops an empty or
      `"."` component, so joining either leaves the path as it is. A `".."`
      component is kept as written. */
  function Join(p: Path, name: string): (r: Path)
    ensures name == "" || name == "." ==> r == p
    ensures name != "" && name != "." ==> Parent(r) == p && Name(r) == name && r != []
  {
    if name == "" || name == "." then p else p + [name]
  }

  predicate IsDir(s: Snapshot, p: Path)
  {
    p in s.nodes && s.nodes[p].Dir?
  }

  predicate IsFile(s: Snapshot, p: Path)
  {
    p in s.nodes && s.nodes[p].File?
  }

  /** A tree: the root is a directory, every other entry sits in a
      directory, and every file identity is below `nextId`. */
  ghost predicate WellFormed(s: Snapshot)
  {
    && IsDir(s, [])
    && (forall p :: p in s.nodes && p != [] ==> IsDir(s, Parent(p)))
    && (forall p :: p in s.nodes && s.nodes[p].File? ==> s.nodes[p].id < s.nextId)
  }

  // ---------------------------------------------------------------------
  // Names: `Path.suffix` and `Path.suffixes`
  // ---------------------------------------------------------------------

  /** `str.rfind`: the last index of `c` in `s`, or -1. */
  function LastIndexOf(s: string, c: char): (i: int)
    ensures -1 <= i < |s|
    ensures 0 <= i ==> s[i] == c
  {
    if s == [] then -1
    else if s[|s| - 1] == c then |s| - 1
    else LastIndexOf(s[..|s| - 1], c)
  }

  /** Nothing after the index `LastIndexOf` finds is `c`. */
  lemma {:induction false} LastIndexOfIsLast(s: string, c: char)
    ensures forall j | LastIndexOf(s, c) < j < |s| :: s[j] != c
    decreases |s|
  {
    if s != [] && s[|s| - 1] != c {
      LastIndexOfIsLast(s[..|s| - 1], c);
    }
  }

  /** `Path.suffix`: from the last dot on, unless that dot starts or ends the name. */
  function Suffix(name: string): string
  {
    var i := LastIndexOf(name, '.');
    if 0 < i < |name| - 1 then name[i..] else ""
  }

  /** A suffix is empty, or one dot followed by at least one non-dot character,
      and it ends the name. */
  lemma SuffixShape(name: string)
    ensures var x := Suffix(name);
      && (x == "" || (|x| >= 2 && x[0] == '.' && forall k :: 1 <= k < |x| ==> x[k] != '.'))
      && |x| <= |name| && name[|name| - |x|..] == x
  {
    LastIndexOfIsLast(name, '.');
  }

  /** `str.split('.')`. */
  function SplitDots(s: string): (parts: seq<string>)
    ensures |parts| >= 1
    decreases |s|
  {
    var i := FirstIndexOf(s, '.');
    if i < 0 then [s] else [s[..i]] + SplitDots(s[i + 1..])
  }

  /** `str.find`: the first index of `c` in `s`, or -1. */
  function FirstIndexOf(s: string, c: char): (i: int)
    ensures -1 <= i < |s|
    ensures 0 <= i ==> s[i] == c
  {
    if s == [] then -1
    else if s[0] == c then 0
    else var k := FirstIndexOf(s[1..], c); if k < 0 then -1 else k + 1
  }

  function LeftStripDots(s: string): string
  {
    if s != [] && s[0] == '.' then LeftStripDots(s[1..]) else s
  }

  function Dotted(parts: seq<string>): seq<string>
  {
    if parts == [] then [] else ["." + parts[0]] + Dotted(parts[1..])
  }

  lemma {:induction false} DottedParts(parts: seq<string>)
    ensures |Dotted(parts)| == |parts|
    ensures forall k | 0 <= k < |parts| :: Dotted(parts)[k] == "." + parts[k]
    decreases |parts|
  {
    if parts != [] {
      DottedParts(parts[1..]);
    }
  }

  /** `Path.suffixes`: none when the name ends in a dot; otherwise every
      dot-separated part after the first, leading dots stripped first. */
  function Suffixes(name: string): seq<string>
  {
    if name != [] && name[|name| - 1] == '.' then []
    else Dotted(SplitDots(LeftStripDots(name))[1..])
  }

  // ---------------------------------------------------------------------
  // Abstract effect of the OS calls
  // ---------------------------------------------------------------------

  /** `Path.mkdir()` without `parents`: the parent must be a directory. */
  function MakeDir(s: Snapshot, p: Path): Outcome
  {
    if p != [] && p !in s.nodes && IsDir(s, Parent(p)) then Outcome(s.(nodes := s.nodes[p := Dir]), None)
    else Outcome(s, Some(OsFailure(p)))
  }

  /** `Path.unlink()` of a file. */
  function Unlink(s: Snapshot, p: Path): Snapshot
  {
    s.(nodes := s.nodes - {p})
  }

  /** `dst.hardlink_to(src)`: a new entry for the very same file. Only reached
      with `dst` absent. */
  function HardLink(s: Snapshot, src: Path, dst: Path): Outcome
    requires dst !in s.nodes
  {
    if dst != [] && IsDir(s, Parent(dst)) && IsFile(s, src) then Outcome(s.(nodes := s.nodes[dst := s.nodes[src]]), None)
    else Outcome(s, Some(OsFailure(dst)))
  }

  /** `shutil.copyfile(src, dst)`: a new file with the source's bytes. Only
      reached with `dst` absent. */
  function CopyFile(s: Snapshot, src: Path, dst: Path): Outcome
    requires dst !in s.nodes
  {
    if dst != [] && IsDir(s, Parent(dst)) && IsFile(s, src) then
      Outcome(Snapshot(s.nodes[dst := File(s.nextId, s.nodes[src].content)], s.nextId + 1), None)
    else Outcome(s, Some(OsFailure(dst)))
  }

  lemma MakeDirKeepsTree(s: Snapshot, p: Path)
    requires WellFormed(s)
    ensures WellFormed(MakeDir(s, p).state)
  {
  }

  lemma UnlinkKeepsTree(s: Snapshot, p: Path)
    requires WellFormed(s) && IsFile(s, p)
    ensures WellFormed(Unlink(s, p))
  {
  }

  lemma HardLinkKeepsTree(s: Snapshot, src: Path, dst: Path)
    requires WellFormed(s) && dst !in s.nodes
    ensures WellFormed(HardLink(s, src, dst).state)
  {
  }

  lemma CopyFileKeepsTree(s: Snapshot, src: Path, dst: Path)
    requires WellFormed(s) && dst !in s.nodes
    ensures WellFormed(CopyFile(s, src, dst).state)
  {
  }

  /** The live filesystem. Methods change it the way the OS calls do. */
  class Disk {
    var nodes: map<Path, Node>
    var nextId: nat

    function State(): Snapshot
      reads this
    {
      Snapshot(nodes, nextId)
    }

    ghost predicate Valid()
      reads this
    {
      WellFormed(State())
    }

    constructor (s: Snapshot)
      requires WellFormed(s)
      ensures Valid() && State() == s
    {
      nodes, nextId := s.nodes, s.nextId;
    }

    /** `Path.exists()`. */
    predicate Exists(p: Path)
      reads this
    {
      p in nodes
    }

    /** `Path.is_dir()`. */
    predicate HasDir(p: Path)
      reads this
    {
      IsDir(State(), p)
    }

    /** `Path.is_file()`. */
    predicate HasFile(p: Path)
      reads this
    {
      IsFile(State(), p)
    }

    method Mkdir(p: Path) returns (err: Option<Error>)
      requires Valid() && p !in nodes
      modifies this
      ensures Valid()
      ensures Outcome(State(), err) == MakeDir(old(State()), p)
    {
      MakeDirKeepsTree(State(), p);
      if p != [] && HasDir(Parent(p)) {
        nodes := nodes[p := Dir];
        err := None;
      } else {
        err := Some(OsFailure(p));
      }
    }

    method Remove(p: Path)
      requires Valid() && HasFile(p)
      modifies this
      ensures Valid()
      ensures State() == Unlink(old(State()), p)
    {
      UnlinkKeepsTree(State(), p);
      nodes := nodes - {p};
    }

    method LinkFrom(dst: Path, src: Path) returns (err: Option<Error>)
      requires Valid() && dst !in nodes
      modifies this
      ensures Valid()
      ensures Outcome(State(), err) == HardLink(old(State()), src, dst)
    {
      HardLinkKeepsTree(State(), src, dst);
      if dst != [] && HasDir(Parent(dst)) && HasFile(src) {
        nodes := nodes[dst := nodes[src]];
        err := None;
      } else {
        err := Some(OsFailure(dst));
      }
    }

    method Copy(src: Path, dst: Path) returns (err: Option<Error>)
      requires Valid() && dst !in nodes
      modifies this
      ensures Valid()
      ensures Outcome(State(), err) == CopyFile(old(State()), src, dst)
    {
      CopyFileKeepsTree(State(), src, dst);
      if dst != [] && HasDir(Parent(dst)) && HasFile(src) {
        nodes := nodes[dst := File(nextId, nodes[src].content)];
        nextId := nextId + 1;
        err := None;
      } else {
        err := Some(OsFailure(dst));
      }
    }
  }
}
