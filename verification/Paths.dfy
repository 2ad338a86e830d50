/**
 File names as the kernel takes them apart: empty components and "." name the directory itself, ".." its
 parent.  Two names with the same components name the same file.
 */
module Paths {
  /** The components of a file's name, from the root on. */
  type Path = seq<string>

  /** A name that has been read so far: the components behind, and the one being read. */
  datatype Walk = Walk(dirs: Path, name: string)

  function Enter(dirs: Path, name: string): (p: Path) {
    if name == "" || name == "." then dirs
    else if name == ".." then (if dirs == [] then [] else dirs[..|dirs|-1])
    else dirs + [name]
  }

  function Scan(s: string): (w: Walk) {
    if s == [] then Walk([], [])
    else
      var w, c := Scan(s[..|s|-1]), s[|s|-1];
      if c == '/' then Walk(Enter(w.dirs, w.name), []) else Walk(w.dirs, w.name + [c])
  }

  function Resolve(s: string): (p: Path) {
    Enter(Scan(s).dirs, Scan(s).name)
  }

  lemma ScanSnoc(s: string, c: char)
    requires c != '/'
    ensures Scan(s + [c]) == Walk(Scan(s).dirs, Scan(s).name + [c])
  {
    assert (s + [c])[..|s|] == s;
  }

  lemma {:induction false} ScanAppend(s: string, t: string)
    requires '/' !in t
    ensures Scan(s + t) == Walk(Scan(s).dirs, Scan(s).name + t)
    decreases |t|
  {
    hide Scan;
    var w := Scan(s);
    if t == [] {
      assert s + t == s && w.name + t == w.name;
    } else {
      var front, c := t[..|t|-1], t[|t|-1];
      assert t == front + [c];
      ScanAppend(s, front);
      ScanSnoc(s + front, c);
      assert s + t == s + front + [c];
      assert w.name + t == w.name + front + [c];
    }
  }

  /** A suffix makes another file, in the same directory or below. */
  lemma Suffixed(s: string, t: string)
    requires '/' !in t && |t| > 2
    ensures Resolve(s + t) == Scan(s).dirs + [Scan(s).name + t] && Resolve(s + t) != Resolve(s)
  {
    ScanAppend(s, t);
    var w := Scan(s);
    assert |w.name + t| > 2;
    if Resolve(s) == w.dirs + [w.name] {
      assert Resolve(s)[|w.dirs|] == w.name && Resolve(s + t)[|w.dirs|] == w.name + t;
      assert |w.name + t| > |w.name|;
    }
  }

  lemma RootResolves()
    ensures Resolve("") == []
  {
  }

  /** A name in a directory. */
  lemma Below(dir: string, name: string)
    requires '/' !in name
    ensures Resolve(dir + ['/'] + name) == Enter(Resolve(dir), name)
  {
    assert (dir + ['/'])[..|dir|] == dir;
    ScanAppend(dir + ['/'], name);
    assert [] + name == name;
  }

  /** A plain component leads one directory down, ".." back up, and an empty component or "." nowhere. */
  lemma DownAndUp(dir: string, name: string)
    requires '/' !in name && name != "" && name != "." && name != ".."
    ensures Resolve(dir + ['/'] + name) == Resolve(dir) + [name]
    ensures Resolve(dir + ['/'] + name + ['/'] + "..") == Resolve(dir)
    ensures Resolve(dir + ['/'] + "") == Resolve(dir + ['/'] + ".") == Resolve(dir)
  {
    hide Resolve;
    Below(dir, name);
    Below(dir + ['/'] + name, "..");
    Below(dir, "");
    Below(dir, ".");
  }

  /** The root is its own parent. */
  lemma RootParent()
    ensures Resolve("" + ['/'] + "..") == []
  {
    hide Resolve;
    RootResolves();
    Below("", "..");
  }
}
