/**
  m_getcwd of 18-5-my_getcwd.c: the path of the current directory, found by
  climbing to the root and looking in each directory for the one just left.
 */
module Getcwd {

  datatype Option<T> = None | Some(value: T)

  // ------------------------------------------------------ directory trees

  // A directory is known by its device and inode, here one number. entries is
  // what readdir lists, "." and ".." included; depth is the distance to root.
  datatype Entry = Entry(name: string, id: nat)
  datatype Tree = Tree(root: nat, parent: map<nat, nat>, entries: map<nat, seq<Entry>>, depth: map<nat, nat>)

  predicate ProperName(name: string) {
    name != "" && '/' !in name && '\0' !in name
  }

  // The entry of the directory d, listed once a name, that has this name.
  function Named(es: seq<Entry>, name: string): Option<nat> {
    if es == [] then None else if es[0].name == name then Some(es[0].id) else Named(es[1..], name)
  }

  // The name of the first entry that is d.
  function NameOf(es: seq<Entry>, d: nat): Option<string> {
    if es == [] then None else if es[0].id == d then Some(es[0].name) else NameOf(es[1..], d)
  }

  lemma {:induction false} NameOfIs(es: seq<Entry>, d: nat, k: nat)
    requires k <= |es| && forall j | 0 <= j < k :: es[j].id != d
    requires k < |es| ==> es[k].id == d
    ensures NameOf(es, d) == if k < |es| then Some(es[k].name) else None
    decreases k
  {
    if k > 0 { NameOfIs(es[1..], d, k - 1); }
  }

  predicate Listing(es: seq<Entry>) {
    forall i | 0 <= i < |es| :: ProperName(es[i].name) && forall j | 0 <= j < i :: es[j].name != es[i].name
  }

  ghost predicate WellFormed(t: Tree) {
    && t.root in t.parent && t.parent[t.root] == t.root
    && forall d {:trigger DirOk(t, d)} | d in t.parent :: DirOk(t, d)
  }

  ghost predicate DirOk(t: Tree, d: nat) {
    && d in t.parent && t.parent[d] in t.parent
    && d in t.entries && t.parent[d] in t.entries && Listing(t.entries[d])
    && d in t.depth && t.parent[d] in t.depth
    && (d != t.root ==> t.parent[d] != d && t.depth[d] == t.depth[t.parent[d]] + 1)
  }

  ghost function Depth(t: Tree, d: nat): nat
    requires WellFormed(t) && d in t.parent
  {
    assert DirOk(t, d);
    t.depth[d]
  }

  // The names from the root down to d; none if a directory on the way is not
  // listed in the one above it.
  ghost function Names(t: Tree, d: nat): Option<seq<string>>
    requires WellFormed(t) && d in t.parent
    decreases Depth(t, d)
  {
    assert DirOk(t, d) && DirOk(t, t.parent[d]);
    if d == t.root then Some([])
    else
      var up, name := Names(t, t.parent[d]), NameOf(t.entries[t.parent[d]], d);
      if up.None? || name.None? then None else Some(up.value + [name.value])
  }

  // The directory d is above, counting from a directory itself.
  ghost predicate OnTheWay(t: Tree, a: nat, d: nat)
    requires WellFormed(t) && d in t.parent
    decreases Depth(t, d)
  {
    assert DirOk(t, d) && DirOk(t, t.parent[d]);
    a == d || (d != t.root && OnTheWay(t, a, t.parent[d]))
  }

  // The directory above a has no entry for it.
  ghost predicate Unlisted(t: Tree, a: nat)
    requires WellFormed(t) && a in t.parent
  {
    assert DirOk(t, a);
    a != t.root && forall e | e in t.entries[t.parent[a]] :: e.id != a
  }

  lemma {:induction false} NoneUnlisted(es: seq<Entry>, d: nat)
    ensures NameOf(es, d) == None <==> forall e | e in es :: e.id != d
  {
    if es != [] {
      NoneUnlisted(es[1..], d);
      assert forall e | e in es :: e == es[0] || e in es[1..];
    }
  }

  // A directory has no names if and only if it, or one on the way up, is not
  // listed above; otherwise it has one for each step from the root.
  lemma {:induction false} NamesExactly(t: Tree, d: nat)
    requires WellFormed(t) && d in t.parent
    ensures Names(t, d) == None <==> exists a | a in t.parent :: OnTheWay(t, a, d) && Unlisted(t, a)
    ensures Names(t, d).Some? ==> |Names(t, d).value| == Depth(t, d) - Depth(t, t.root)
    decreases Depth(t, d)
  {
    assert DirOk(t, d) && DirOk(t, t.parent[d]);
    if d == t.root {
      assert forall a | a in t.parent && OnTheWay(t, a, d) :: !Unlisted(t, a);
    } else {
      var p := t.parent[d];
      NamesExactly(t, p);
      NoneUnlisted(t.entries[p], d);
      assert Unlisted(t, d) <==> NameOf(t.entries[p], d) == None;
      assert OnTheWay(t, d, d);
      assert forall a | a in t.parent :: OnTheWay(t, a, d) <==> a == d || OnTheWay(t, a, p);
    }
  }

  // names is what lies between up and the whole.
  predicate Below(whole: Option<seq<string>>, up: Option<seq<string>>, names: seq<string>) {
    if up.Some? then whole == Some(up.value + names) else whole == None
  }

  lemma {:induction false} ClimbStep(t: Tree, d: nat, whole: Option<seq<string>>, names: seq<string>)
    requires WellFormed(t) && d in t.parent && d != t.root && Below(whole, Names(t, d), names)
    ensures DirOk(t, d) && t.parent[d] != d && Depth(t, t.parent[d]) < Depth(t, d)
    ensures var name := NameOf(t.entries[t.parent[d]], d);
            if name.Some? then Below(whole, Names(t, t.parent[d]), [name.value] + names) else whole == None
  {
    assert DirOk(t, d) && DirOk(t, t.parent[d]);
    var up, name := Names(t, t.parent[d]), NameOf(t.entries[t.parent[d]], d);
    if up.Some? && name.Some? {
      assert up.value + [name.value] + names == up.value + ([name.value] + names);
    }
  }

  // Where names lead from d.
  function Walk(t: Tree, d: nat, names: seq<string>): Option<nat>
    decreases |names|
  {
    if names == [] then Some(d)
    else if d !in t.entries || Named(t.entries[d], names[0]).None? then None
    else Walk(t, Named(t.entries[d], names[0]).value, names[1..])
  }

  lemma {:induction false} WalkOn(t: Tree, d: nat, names: seq<string>, name: string)
    ensures Walk(t, d, names + [name]) ==
            if Walk(t, d, names).None? then None else Walk(t, Walk(t, d, names).value, [name])
    decreases |names|
  {
    if names == [] {
      assert names + [name] == [name];
    } else {
      assert (names + [name])[1..] == names[1..] + [name];
      if d in t.entries && Named(t.entries[d], names[0]).Some? {
        WalkOn(t, Named(t.entries[d], names[0]).value, names[1..], name);
      }
    }
  }

  // The name found for a directory is its name.
  lemma {:induction false} NameIsNamed(es: seq<Entry>, d: nat)
    requires Listing(es) && NameOf(es, d).Some?
    ensures ProperName(NameOf(es, d).value) && Named(es, NameOf(es, d).value) == Some(d)
    ensures exists i :: 0 <= i < |es| && es[i].name == NameOf(es, d).value
  {
    if es[0].id != d {
      assert Listing(es[1..]) by {
        forall i | 0 <= i < |es| - 1 ensures es[1..][i] == es[i + 1] {}
      }
      NameIsNamed(es[1..], d);
      var i :| 0 <= i < |es| - 1 && es[1..][i].name == NameOf(es[1..], d).value;
      assert es[i + 1].name == NameOf(es, d).value;
    }
  }

  predicate ProperNames(names: seq<string>) {
    forall i | 0 <= i < |names| :: ProperName(names[i])
  }

  // The names lead back to where the climb began.
  lemma {:induction false} NamesLeadBack(t: Tree, d: nat)
    requires WellFormed(t) && d in t.parent && Names(t, d).Some?
    ensures ProperNames(Names(t, d).value)
    ensures Walk(t, t.root, Names(t, d).value) == Some(d)
    decreases Depth(t, d)
  {
    assert DirOk(t, d) && DirOk(t, t.parent[d]);
    if d != t.root {
      var p := t.parent[d];
      NamesLeadBack(t, p);
      NameIsNamed(t.entries[p], d);
      var name := NameOf(t.entries[p], d).value;
      WalkOn(t, t.root, Names(t, p).value, name);
      assert [name][1..] == [];
    }
  }

  // ---------------------------------------------------------------- paths

  function Concat(names: seq<string>): string {
    if names == [] then "" else "/" + names[0] + Concat(names[1..])
  }

  lemma {:induction false} ConcatStep(done: string, p: seq<string>)
    requires p != []
    ensures done + Concat(p) == (done + "/" + p[0]) + Concat(p[1..])
  {
    assert Concat(p) == ("/" + p[0]) + Concat(p[1..]);
    assert done + ("/" + p[0]) == done + "/" + p[0];
  }

  function Path(names: seq<string>): string {
    if names == [] then "/" else Concat(names)
  }

  // The bytes of the names, and of a slash for each.
  function Bytes(names: seq<string>): nat {
    if names == [] then 0 else 1 + |names[0]| + Bytes(names[1..])
  }

  lemma {:induction false} ConcatLength(names: seq<string>)
    ensures |Concat(names)| == Bytes(names)
  {
    if names != [] { ConcatLength(names[1..]); }
  }

  // So there is one slash before each name and none at the end.
  lemma {:induction false} PathLength(names: seq<string>)
    ensures |Path(names)| == if names == [] then 1 else Bytes(names)
  {
    ConcatLength(names);
  }

  function UpToSlash(s: string): (r: string)
    ensures |r| <= |s| && r == s[..|r|]
  {
    if s == "" || s[0] == '/' then "" else [s[0]] + UpToSlash(s[1..])
  }

  // The components of an absolute path, as path name resolution reads them:
  // slashes that follow one another count as one.
  function Parts(s: string): seq<string>
    decreases |s|
  {
    if s == "" || s[0] != '/' then []
    else
      var n := UpToSlash(s[1..]);
      (if n == "" then [] else [n]) + Parts(s[1 + |n|..])
  }

  lemma {:induction false} UpToSlashStops(name: string, rest: string)
    requires '/' !in name && (rest == "" || rest[0] == '/')
    ensures UpToSlash(name + rest) == name
  {
    if name == "" {
      assert name + rest == rest;
    } else {
      assert (name + rest)[1..] == name[1..] + rest;
      UpToSlashStops(name[1..], rest);
    }
  }

  lemma {:induction false} PartsStep(name: string, rest: string)
    requires ProperName(name) && (rest == "" || rest[0] == '/')
    ensures Parts("/" + name + rest) == [name] + Parts(rest)
  {
    var s := "/" + name + rest;
    assert s[1..] == name + rest;
    UpToSlashStops(name, rest);
    assert s[1 + |name|..] == rest;
  }

  lemma {:induction false} ConcatParts(names: seq<string>)
    requires ProperNames(names)
    ensures Parts(Concat(names)) == names
  {
    if names != [] {
      ConcatParts(names[1..]);
      assert ProperName(names[0]);
      PartsStep(names[0], Concat(names[1..]));
    }
  }

  lemma {:induction false} PathParts(names: seq<string>)
    requires ProperNames(names)
    ensures Parts(Path(names)) == names
  {
    ConcatParts(names);
    if names == [] { assert "/"[1..] == ""; }
  }

  function Resolve(t: Tree, path: string): Option<nat> {
    Walk(t, t.root, Parts(path))
  }

  // The path found for a directory resolves to it.
  lemma {:induction false} PathResolves(t: Tree, d: nat)
    requires WellFormed(t) && d in t.parent && Names(t, d).Some?
    ensures Resolve(t, Path(Names(t, d).value)) == Some(d)
  {
    NamesLeadBack(t, d);
    PathParts(Names(t, d).value);
  }

  // The path is made of slashes and names, except at the root.
  lemma {:induction false} PathAtRoot(t: Tree, d: nat)
    requires WellFormed(t) && d in t.parent && Names(t, d).Some?
    ensures Names(t, d).value == [] <==> d == t.root
    ensures d == t.root ==> Path(Names(t, d).value) == "/"
  {
  }

  // ------------------------------------------------------------- m_getcwd

  datatype Outcome = Done | ERange | NotFound

  // The path and its terminator are at the front of the buffer.
  predicate HoldsString(buf: seq<char>, s: string) {
    |s| < |buf| && buf[..|s|] == s && buf[|s|] == '\0'
  }

  class Process {
    const t: Tree
    var cwd: nat

    constructor (t: Tree, cwd: nat)
      ensures this.t == t && this.cwd == cwd
    {
      this.t, this.cwd := t, cwd;
    }

    // Lines 36 to 58: looks for local in the current directory.
    method Search(local: nat) returns (name: Option<string>)
      requires cwd in t.entries
      ensures name == NameOf(t.entries[cwd], local)
    {
      var es := t.entries[cwd];
      var k := 0;
      while k < |es| && es[k].id != local
        invariant k <= |es| && forall j | 0 <= j < k :: es[j].id != local
      {
        k := k + 1;
      }
      NameOfIs(es, local, k);
      name := if k < |es| then Some(es[k].name) else None;
    }

    // Lines 19 to 59: the list after header, filled on the way up.
    method Climb() returns (found: bool, names: seq<string>)
      requires WellFormed(t) && cwd in t.parent
      modifies this
      ensures found ==> Names(t, old(cwd)) == Some(names) && cwd == t.root
      ensures !found ==> Names(t, old(cwd)) == None
    {
      ghost var whole := Names(t, cwd);
      names := [];
      assert whole.Some? ==> whole.value + [] == whole.value;
      while t.parent[cwd] != cwd
        invariant cwd in t.parent && Below(whole, Names(t, cwd), names)
        decreases Depth(t, cwd)
      {
        var local := cwd;
        ClimbStep(t, local, whole, names);
        cwd := t.parent[cwd];
        var name := Search(local);
        if name.None? { return false, names; }
        names := [name.value] + names;
      }
      found := true;
      assert DirOk(t, cwd);
      assert [] + names == names;
    }

    // Lines 69 and 70, after the string s: a slash, then strcpy.
    method Append(buf: array<char>, ghost s: string, offset: nat, name: string)
      requires offset == |s| && offset + 1 + |name| < buf.Length && buf[..offset] == s
      modifies buf
      ensures HoldsString(buf[..], s + "/" + name)
    {
      buf[offset] := '/';
      var at, k := offset + 1, 0;
      while k < |name|
        invariant k <= |name| && buf[..at + k] == s + "/" + name[..k]
      {
        buf[at + k] := name[k];
        k := k + 1;
        assert buf[..at + k] == buf[..at + k - 1] + [name[k - 1]];
      }
      buf[at + k] := '\0';
      assert name[..k] == name;
    }

    // Lines 61 to 79: the names are taken off the list and put in buf. Without
    // names nothing is written, not even a terminator.
    method Assemble(names: seq<string>, buf: array<char>) returns (ok: bool)
      modifies buf
      ensures names != [] ==> (ok <==> |Path(names)| + 1 <= buf.Length)
      ensures names != [] && ok ==> HoldsString(buf[..], Path(names))
      ensures names == [] ==> ok && buf[..] == old(buf[..])
    {
      var p, offset := names, 0;
      ghost var done := "";
      while p != []
        invariant done + Concat(p) == Concat(names) && offset == |done| <= buf.Length
        invariant buf[..offset] == done
        invariant if p == names then buf[..] == old(buf[..]) else HoldsString(buf[..], done)
        decreases |p|
      {
        ConcatStep(done, p);
        if offset + |p[0]| + 1 >= buf.Length { return false; }
        Append(buf, done, offset, p[0]);
        done := done + "/" + p[0];
        offset := offset + 1 + |p[0]|;
        p := p[1..];
      }
      ok := true;
      assert done == Concat(names);
    }

    // The program as written, with was for what buf held before. At the root it
    // succeeds whatever the size and leaves the buffer as it was; so a caller
    // that is told of success has the path if and only if it did not start at
    // the root or the buffer happened to hold "/" already.
    method AsWritten(given: array?<char>, size: nat) returns (out: Outcome, buf: array<char>, ghost was: seq<char>)
      requires WellFormed(t) && cwd in t.parent
      requires given != null ==> given.Length == size
      modifies this, given
      ensures buf.Length == size && (given != null ==> buf == given && was == old(given[..]))
      ensures out == NotFound <==> Names(t, old(cwd)).None?
      ensures old(cwd) == t.root ==> out == Done && buf[..] == was
      ensures old(cwd) != t.root && out != NotFound ==>
                (out == ERange <==> |Path(Names(t, old(cwd)).value)| + 1 > size)
      ensures out == Done ==>
                (HoldsString(buf[..], Path(Names(t, old(cwd)).value)) <==> old(cwd) != t.root || HoldsString(was, "/"))
    {
      if given == null { buf := new char[size]; } else { buf := given; }
      was := buf[..];
      var found, names := Climb();
      if !found { return NotFound, buf, was; }
      PathAtRoot(t, old(cwd));
      var ok := Assemble(names, buf);
      out := if ok then Done else ERange;
    }

    // Whenever it succeeds the result resolves to the directory where it began;
    // it fails with ERANGE exactly when the path and its terminator do not fit;
    // and it leaves the process in the root directory.
    method MGetcwd(given: array?<char>, size: nat) returns (out: Outcome, buf: array<char>, ghost path: string)
      requires WellFormed(t) && cwd in t.parent
      requires given != null ==> given.Length == size
      modifies this, given
      ensures out == NotFound <==> Names(t, old(cwd)).None?
      ensures out != NotFound ==> path == Path(Names(t, old(cwd)).value) && cwd == t.root
      ensures out != NotFound ==> Resolve(t, path) == Some(old(cwd))
      ensures out == ERange <==> out != NotFound && |path| + 1 > size
      ensures out == Done ==> HoldsString(buf[..], path)
      ensures buf.Length == size && (given != null ==> buf == given)
    {
      if given == null { buf := new char[size]; } else { buf := given; }
      path := "";
      var found, names := Climb();
      if !found { return NotFound, buf, path; }
      PathResolves(t, old(cwd));
      path := Path(names);
      if names == [] {
        // REPAIR: at the root the program leaves buf as it was
        if size < 2 { return ERange, buf, path; }
        buf[0], buf[1] := '/', '\0';
        return Done, buf, path;
      }
      var ok := Assemble(names, buf);
      out := if ok then Done else ERange;
    }
  }
}
