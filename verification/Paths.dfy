/** Clean, Join, Dir and Base of Go's path packages, on Unix. Clean is the
    lexical rules of its documentation applied to the elements of a path. */
module Paths {

  // The non-empty elements between slashes.
  function Elements(s: string): (es: seq<string>)
    ensures s != "" && s[0] != '/' ==> es != []
  {
    if s == "" then []
    else if s[0] == '/' then Elements(s[1..])
    else if |s| == 1 || s[1] == '/' then [[s[0]]] + Elements(s[1..])
    else
      var rest := Elements(s[1..]);
      [[s[0]] + rest[0]] + rest[1..]
  }

  function JoinElements(es: seq<string>): string {
    if es == [] then ""
    else if |es| == 1 then es[0]
    else JoinElements(es[..|es| - 1]) + "/" + es[|es| - 1]
  }

  // One more element on the way: "." stays, ".." goes up where it can.
  function Push(rooted: bool, out: seq<string>, e: string): seq<string> {
    if e == "." then out
    else if e == ".." then
      if out != [] && out[|out| - 1] != ".." then out[..|out| - 1]
      else if rooted then out
      else out + [e]
    else out + [e]
  }

  function Reduce(rooted: bool, es: seq<string>): seq<string> {
    if es == [] then [] else Push(rooted, Reduce(rooted, es[..|es| - 1]), es[|es| - 1])
  }

  function Render(rooted: bool, es: seq<string>): string {
    if rooted then "/" + JoinElements(es)
    else if es == [] then "."
    else JoinElements(es)
  }

  predicate Rooted(path: string) {
    path != "" && path[0] == '/'
  }

  // filepath.Clean
  function Clean(path: string): string {
    Render(Rooted(path), Reduce(Rooted(path), Elements(path)))
  }

  // filepath.Join of two elements, the second not empty.
  function Join(dir: string, name: string): string {
    if dir == "" then Clean(name) else Clean(dir + "/" + name)
  }

  // The path up to its last slash.
  function DirPrefix(path: string): (prefix: string)
    ensures prefix <= path
    ensures prefix == "" || prefix[|prefix| - 1] == '/'
  {
    if path == "" || path[|path| - 1] == '/' then path else DirPrefix(path[..|path| - 1])
  }

  // filepath.Dir
  function Dir(path: string): string {
    Clean(DirPrefix(path))
  }

  function TrimSlashes(path: string): string {
    if path != "" && path[|path| - 1] == '/' then TrimSlashes(path[..|path| - 1]) else path
  }

  // path.Base
  function Base(path: string): string {
    if path == "" then "."
    else
      var trimmed := TrimSlashes(path);
      var name := trimmed[|DirPrefix(trimmed)|..];
      if name == "" then "/" else name
  }

  // ---- Elements ---------------------------------------------------------

  predicate Element(e: string) {
    e != "" && '/' !in e
  }

  // The name of a directory entry.
  predicate Name(e: string) {
    Element(e) && e != "." && e != ".."
  }

  predicate AllElements(es: seq<string>) {
    forall i :: 0 <= i < |es| ==> Element(es[i])
  }

  predicate AllNames(es: seq<string>) {
    forall i :: 0 <= i < |es| ==> Name(es[i])
  }

  lemma {:induction false} ElementsConcat(a: string, b: string)
    ensures Elements(a + "/" + b) == Elements(a) + Elements(b)
    decreases |a|
  {
    var s := a + "/" + b;
    if a == "" {
      assert s[1..] == b;
    } else {
      assert s[1..] == a[1..] + "/" + b;
      ElementsConcat(a[1..], b);
    }
  }

  lemma {:induction false} ElementsOfOne(e: string)
    requires Element(e)
    ensures Elements(e) == [e]
    decreases |e|
  {
    assert e[0] in e;
    if |e| == 1 {
      assert e[1..] == "" && [e[0]] == e;
    } else {
      assert e[1] in e;
      ElementsOfOne(e[1..]);
      assert [e[0]] + e[1..] == e;
    }
  }

  lemma {:induction false} ElementsAreElements(s: string)
    ensures AllElements(Elements(s))
  {
    if s != "" {
      ElementsAreElements(s[1..]);
    }
  }

  lemma {:induction false} ElementsOfJoin(es: seq<string>)
    requires AllElements(es)
    ensures Elements(JoinElements(es)) == es
    ensures es != [] ==> JoinElements(es) != "" && JoinElements(es)[0] != '/'
  {
    if es != [] {
      var last := |es| - 1;
      ElementsOfOne(es[last]);
      assert es[0][0] in es[0];
      if last > 0 {
        ElementsOfJoin(es[..last]);
        ElementsConcat(JoinElements(es[..last]), es[last]);
        assert es == es[..last] + [es[last]];
      }
    }
  }

  // ---- Clean paths ------------------------------------------------------

  // What Reduce leaves: ".." only at the front, and only of relative paths.
  predicate Reduced(rooted: bool, es: seq<string>) {
    && AllElements(es)
    && (forall i :: 0 <= i < |es| ==> es[i] != ".")
    && (forall i :: 0 <= i < |es| && es[i] == ".." ==> !rooted && (i > 0 ==> es[i - 1] == ".."))
  }

  lemma {:induction false} ReduceIsReduced(rooted: bool, es: seq<string>)
    requires AllElements(es)
    ensures Reduced(rooted, Reduce(rooted, es))
  {
    if es != [] {
      ReduceIsReduced(rooted, es[..|es| - 1]);
    }
  }

  lemma {:induction false} ReduceKeeps(rooted: bool, es: seq<string>)
    requires Reduced(rooted, es)
    ensures Reduce(rooted, es) == es
  {
    if es != [] {
      var last := |es| - 1;
      ReduceKeeps(rooted, es[..last]);
      assert es == es[..last] + [es[last]];
    }
  }

  lemma ElementsOfRender(rooted: bool, es: seq<string>)
    requires Reduced(rooted, es)
    ensures Rooted(Render(rooted, es)) == rooted
    ensures Elements(Render(rooted, es)) == if !rooted && es == [] then ["."] else es
  {
    ElementsOfJoin(es);
    if rooted {
      assert Render(rooted, es)[1..] == JoinElements(es);
    } else if es == [] {
      ElementsOfOne(".");
    }
  }

  lemma ReduceDot(es: seq<string>)
    requires es == ["."]
    ensures Reduce(false, es) == []
  {
    assert es[..0] == [];
  }

  // A rendered path is clean.
  lemma CleanRender(rooted: bool, es: seq<string>)
    requires Reduced(rooted, es)
    ensures Clean(Render(rooted, es)) == Render(rooted, es)
  {
    ElementsOfRender(rooted, es);
    if !rooted && es == [] {
      ReduceDot(Elements(Render(rooted, es)));
    } else {
      ReduceKeeps(rooted, es);
    }
  }

  predicate IsClean(path: string) {
    path == Clean(path)
  }

  function Parts(path: string): seq<string> {
    Reduce(Rooted(path), Elements(path))
  }

  // Clean paths are the rendered ones.
  lemma CleanParts(path: string)
    requires IsClean(path)
    ensures path == Render(Rooted(path), Parts(path)) && Reduced(Rooted(path), Parts(path)) && path != ""
  {
    ElementsAreElements(path);
    ReduceIsReduced(Rooted(path), Elements(path));
    ElementsOfJoin(Parts(path));
  }

  lemma CleanIsClean(path: string)
    ensures IsClean(Clean(path))
  {
    ElementsAreElements(path);
    ReduceIsReduced(Rooted(path), Elements(path));
    CleanRender(Rooted(path), Reduce(Rooted(path), Elements(path)));
  }

  lemma ReduceSnoc(rooted: bool, es: seq<string>, e: string)
    ensures Reduce(rooted, es + [e]) == Push(rooted, Reduce(rooted, es), e)
  {
    assert (es + [e])[..|es|] == es;
  }

  // Joining a name to a clean path appends it.
  lemma JoinName(path: string, name: string)
    requires IsClean(path) && Name(name)
    ensures Join(path, name) == Render(Rooted(path), Parts(path) + [name])
    ensures Reduced(Rooted(path), Parts(path) + [name])
    ensures IsClean(Join(path, name)) && Rooted(Join(path, name)) == Rooted(path)
    ensures Parts(Join(path, name)) == Parts(path) + [name]
  {
    CleanParts(path);
    var rooted, es := Rooted(path), Parts(path);
    ElementsConcat(path, name);
    ElementsOfOne(name);
    ReduceSnoc(rooted, Elements(path), name);
    assert Reduced(rooted, es + [name]);
    CleanRender(rooted, es + [name]);
    ElementsOfRender(rooted, es + [name]);
    ReduceKeeps(rooted, es + [name]);
  }

  lemma {:induction false} DirPrefixOf(a: string, name: string)
    requires '/' !in name
    requires a == "" || a[|a| - 1] == '/'
    ensures DirPrefix(a + name) == a
    decreases |name|
  {
    var s := a + name;
    if name == "" {
      assert s == a;
    } else {
      assert s[|s| - 1] == name[|name| - 1];
      assert s[..|s| - 1] == a + name[..|name| - 1];
      DirPrefixOf(a, name[..|name| - 1]);
    }
  }

  lemma CleanSlash(rooted: bool, es: seq<string>)
    requires Reduced(rooted, es)
    ensures Clean(Render(rooted, es) + "/") == Render(rooted, es)
  {
    var p := Render(rooted, es);
    assert p + "/" + "" == p + "/";
    ElementsConcat(p, "");
    CleanRender(rooted, es);
    ElementsOfRender(rooted, es);
    assert Elements(p) + Elements("") == Elements(p);
    assert p != "" && Rooted(p + "/") == Rooted(p) by {
      ElementsOfJoin(es);
    }
  }

  // What stands in front of the last element of a rendered path.
  function Front(rooted: bool, es: seq<string>): string {
    (if rooted then "/" else "") + (if es == [] then "" else JoinElements(es) + "/")
  }

  lemma RenderSnoc(rooted: bool, es: seq<string>, name: string)
    requires name != ""
    ensures Render(rooted, es + [name]) == Front(rooted, es) + name
    ensures Front(rooted, es) == "" || Front(rooted, es)[|Front(rooted, es)| - 1] == '/'
  {
    assert (es + [name])[..|es|] == es;
  }

  lemma CleanFront(rooted: bool, es: seq<string>)
    requires Reduced(rooted, es)
    ensures Clean(Front(rooted, es)) == Render(rooted, es)
  {
    if es == [] {
      assert Front(rooted, es) == if rooted then "/" else "";
      if rooted {
        CleanRender(rooted, es);
      }
    } else {
      assert Front(rooted, es) == Render(rooted, es) + "/";
      CleanSlash(rooted, es);
    }
  }

  // Going into a directory and back up is no move.
  lemma DirOfJoin(path: string, name: string)
    requires IsClean(path) && Name(name)
    ensures Dir(Join(path, name)) == path
  {
    hide Join, Clean, Reduce, Elements, Render, Front;
    var rooted, es := Rooted(path), Parts(path);
    CleanParts(path);
    JoinName(path, name);
    RenderSnoc(rooted, es, name);
    DirPrefixOf(Front(rooted, es), name);
    CleanFront(rooted, es);
  }

  // ---- Base -------------------------------------------------------------

  lemma {:induction false} NoSlashBehindDir(path: string)
    ensures '/' !in path[|DirPrefix(path)|..]
  {
    if path != "" && path[|path| - 1] != '/' {
      var before, last := path[..|path| - 1], path[|path| - 1];
      NoSlashBehindDir(before);
      assert path[|DirPrefix(path)|..] == before[|DirPrefix(before)|..] + [last];
    }
  }

  // path.Base gives a name, or one of three that mean a directory.
  lemma BaseIsName(path: string)
    ensures Name(Base(path)) <==> Base(path) !in {".", "..", "/"}
  {
    if path != "" {
      NoSlashBehindDir(TrimSlashes(path));
    }
    assert '/' in "/" by {
      assert "/"[0] == '/';
    }
  }

  // It is what stands behind the last slash, slashes at the end left aside.
  lemma BaseOf(dir: string, name: string)
    requires Element(name)
    ensures Base(dir + "/" + name) == name && Base(name) == name
  {
    DirPrefixOf(dir + "/", name);
    DirPrefixOf("", name);
    assert "" + name == name;
    assert (dir + "/" + name)[|dir| + 1..] == name;
    assert name[|name| - 1] in name;
    assert (dir + "/" + name)[|dir + "/" + name| - 1] == name[|name| - 1];
  }

  lemma BaseTrims(path: string)
    ensures path != "" ==> Base(path + "/") == Base(path)
    ensures Base("") == "." && Base("/") == "/"
  {
    assert (path + "/")[..|path|] == path;
    assert "/"[..0] == "";
  }

  // A name is joined to nothing as it is.
  lemma JoinAlone(name: string)
    requires Name(name)
    ensures Join("", name) == name
  {
    ElementsOfOne(name);
    ReduceKeeps(false, [name]);
    assert name[0] in name;
  }

  // ---- Descending -------------------------------------------------------

  // The directory reached from dir through names.
  function Descend(dir: string, names: seq<string>): string {
    if names == [] then dir else Join(Descend(dir, names[..|names| - 1]), names[|names| - 1])
  }

  lemma {:induction false} DescendParts(dir: string, names: seq<string>)
    requires IsClean(dir) && AllNames(names)
    ensures IsClean(Descend(dir, names)) && Rooted(Descend(dir, names)) == Rooted(dir)
    ensures Parts(Descend(dir, names)) == Parts(dir) + names
  {
    hide Join, Clean, Parts, Reduce, Elements;
    if names != [] {
      var last := |names| - 1;
      DescendParts(dir, names[..last]);
      JoinName(Descend(dir, names[..last]), names[last]);
      assert names == names[..last] + [names[last]];
    }
  }

  // Different names lead to different places, and away from dir.
  lemma DescendInjective(dir: string, a: seq<string>, b: seq<string>)
    requires IsClean(dir) && AllNames(a) && AllNames(b)
    ensures Descend(dir, a) == Descend(dir, b) <==> a == b
  {
    DescendParts(dir, a);
    DescendParts(dir, b);
    if Descend(dir, a) == Descend(dir, b) {
      assert a == (Parts(dir) + a)[|Parts(dir)|..];
      assert b == (Parts(dir) + b)[|Parts(dir)|..];
    }
  }

  // Dir undoes the last step.
  lemma DirOfDescend(dir: string, names: seq<string>)
    requires IsClean(dir) && AllNames(names) && names != []
    ensures Dir(Descend(dir, names)) == Descend(dir, names[..|names| - 1])
  {
    var last := |names| - 1;
    DescendParts(dir, names[..last]);
    DirOfJoin(Descend(dir, names[..last]), names[last]);
  }
}
