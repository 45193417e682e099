/** What Clean (filepath.Clean) is for: a cleaned path leads to the same place
    as the path, and two paths are cleaned to the same string only if they do.
    A place is the names on the way down from the root of a tree without links;
    this walk knows nothing of how Clean works. */
module PathPlaces {
  import opened Paths

  function Go(place: seq<string>, element: string): seq<string> {
    if element == "." then place
    else if element == ".." then if place == [] then [] else place[..|place| - 1]
    else place + [element]
  }

  function Walk(place: seq<string>, elements: seq<string>): seq<string>
    decreases |elements|
  {
    if elements == [] then place else Walk(Go(place, elements[0]), elements[1..])
  }

  // Where a path leads from a working directory.
  function Place(cwd: seq<string>, path: string): seq<string> {
    Walk(if "/" <= path then [] else cwd, Elements(path))
  }

  lemma {:induction false} WalkSnoc(place: seq<string>, elements: seq<string>, element: string)
    ensures Walk(place, elements + [element]) == Go(Walk(place, elements), element)
    decreases |elements|
  {
    var all := elements + [element];
    if elements == [] {
      assert all[1..] == [];
    } else {
      assert all[1..] == elements[1..] + [element];
      WalkSnoc(Go(place, elements[0]), elements[1..], element);
    }
  }

  // ---- Cleaning keeps the place -----------------------------------------

  lemma PushWalks(rooted: bool, place: seq<string>, out: seq<string>, e: string)
    requires Reduced(rooted, out) && (rooted ==> place == [])
    ensures Walk(place, Push(rooted, out, e)) == Go(Walk(place, out), e)
  {
    if e == ".." && out != [] && out[|out| - 1] != ".." {
      var before, last := out[..|out| - 1], out[|out| - 1];
      WalkSnoc(place, before, last);
      assert out == before + [last];
      assert Go(Go(Walk(place, before), last), "..") == Walk(place, before);
    } else if e != "." && (e != ".." || !rooted) {
      WalkSnoc(place, out, e);
    }
  }

  lemma {:induction false} ReduceWalks(rooted: bool, place: seq<string>, elements: seq<string>)
    requires AllElements(elements) && (rooted ==> place == [])
    ensures Walk(place, Reduce(rooted, elements)) == Walk(place, elements)
    decreases |elements|
  {
    if elements != [] {
      var before, last := elements[..|elements| - 1], elements[|elements| - 1];
      assert elements == before + [last];
      ReduceWalks(rooted, place, before);
      ReduceIsReduced(rooted, before);
      PushWalks(rooted, place, Reduce(rooted, before), last);
      WalkSnoc(place, before, last);
    }
  }

  lemma RootedIff(path: string)
    ensures Rooted(path) <==> "/" <= path
  {
  }

  lemma PlaceOfRender(cwd: seq<string>, rooted: bool, es: seq<string>)
    requires Reduced(rooted, es)
    ensures Place(cwd, Render(rooted, es)) == Walk(if rooted then [] else cwd, es)
  {
    ElementsOfRender(rooted, es);
    RootedIff(Render(rooted, es));
    if !rooted && es == [] {
      assert ["."][1..] == [];
    }
  }

  // From every working directory, the cleaned path leads where the path does.
  lemma CleanKeepsPlace(cwd: seq<string>, path: string)
    ensures Place(cwd, Clean(path)) == Place(cwd, path)
  {
    var rooted, es := Rooted(path), Elements(path);
    ElementsAreElements(path);
    ReduceIsReduced(rooted, es);
    PlaceOfRender(cwd, rooted, Reduce(rooted, es));
    ReduceWalks(rooted, if rooted then [] else cwd, es);
    RootedIff(path);
  }

  // ---- And only the place -----------------------------------------------

  // How often a reduced path goes up, which it does first.
  function Ups(es: seq<string>): (k: nat)
    ensures k <= |es|
  {
    if es == [] || es[0] != ".." then 0 else 1 + Ups(es[1..])
  }

  lemma {:induction false} ReducedTail(es: seq<string>)
    requires Reduced(false, es) && es != [] && es[0] == ".."
    ensures Reduced(false, es[1..])
  {
    forall i | 0 <= i < |es[1..]| && es[1..][i] == ".."
      ensures i > 0 ==> es[1..][i - 1] == ".."
    {
      assert es[i + 1] == "..";
    }
  }

  lemma {:induction false} WalkDown(place: seq<string>, names: seq<string>)
    requires AllNames(names)
    ensures Walk(place, names) == place + names
    decreases |names|
  {
    if names != [] {
      WalkDown(place + [names[0]], names[1..]);
      assert place + [names[0]] + names[1..] == place + names;
    }
  }

  lemma {:induction false} NoUpsBelow(rooted: bool, es: seq<string>)
    requires Reduced(rooted, es) && (es != [] ==> es[0] != "..")
    ensures AllNames(es)
  {
    forall i | 0 <= i < |es|
      ensures Name(es[i])
    {
      NoUpAt(rooted, es, i);
    }
  }

  lemma {:induction false} NoUpAt(rooted: bool, es: seq<string>, i: nat)
    requires Reduced(rooted, es) && es != [] && es[0] != ".." && i < |es|
    ensures es[i] != ".."
  {
    if i > 0 {
      NoUpAt(rooted, es, i - 1);
    }
  }

  // A reduced relative path goes up from the end of a deep enough place, then
  // down its names.
  lemma {:induction false} WalkReduced(place: seq<string>, es: seq<string>)
    requires Reduced(false, es) && Ups(es) <= |place|
    ensures AllNames(es[Ups(es)..])
    ensures Walk(place, es) == place[..|place| - Ups(es)] + es[Ups(es)..]
    decreases |es|
  {
    if es == [] || es[0] != ".." {
      NoUpsBelow(false, es);
      WalkDown(place, es);
      assert es[0..] == es && place[..|place|] == place;
    } else {
      var up := place[..|place| - 1];
      ReducedTail(es);
      WalkReduced(up, es[1..]);
      assert es[1..][Ups(es) - 1..] == es[Ups(es)..];
      assert up[..|up| - (Ups(es) - 1)] == place[..|place| - Ups(es)];
    }
  }

  // A name that is not among some others.
  function Fresh(names: seq<string>): (name: string)
    ensures name != ""
  {
    if names == [] then "aaa" else Fresh(names[1..]) + names[0] + "a"
  }

  lemma FreshIsNotFirst(names: seq<string>)
    requires names != []
    ensures names[0] != Fresh(names)
  {
    assert |Fresh(names)| > |names[0]|;
  }

  lemma {:induction false} FreshIsName(names: seq<string>)
    requires AllNames(names)
    ensures Name(Fresh(names)) && |Fresh(names)| >= 3
  {
    if names != [] {
      FreshIsName(names[1..]);
    }
  }

  // Relative paths that lead to the same place from everywhere go up equally
  // often: from a place of fresh names the one that goes up less stays on one.
  lemma SameUps(a: seq<string>, b: seq<string>)
    requires Reduced(false, a) && Reduced(false, b) && Ups(a) <= Ups(b)
    requires forall cwd :: AllNames(cwd) ==> Walk(cwd, a) == Walk(cwd, b)
    ensures a == b
  {
    hide Reduced, Walk, Fresh;
    var up, names := Ups(b), b[Ups(b)..];
    WalkReduced(seq(up, i => "a"), b);
    var other := Fresh(names);
    var cwd := seq(up, i => other);
    FreshIsName(names);
    WalkReduced(cwd, a);
    WalkReduced(cwd, b);
    assert Walk(cwd, a) == Walk(cwd, b);
    assert cwd[..0] == [] && [] + names == names;
    FreshIsNotAhead(names, cwd, up - Ups(a), a[Ups(a)..]);
    SameStart(a, b);
  }

  lemma FreshIsNotAhead(names: seq<string>, cwd: seq<string>, kept: nat, rest: seq<string>)
    requires kept <= |cwd| && names == cwd[..kept] + rest
    requires forall i :: 0 <= i < |cwd| ==> cwd[i] == Fresh(names)
    ensures kept == 0
  {
    if names != [] {
      FreshIsNotFirst(names);
    }
  }

  lemma {:induction false} SameStart(a: seq<string>, b: seq<string>)
    requires Ups(a) == Ups(b) && a[Ups(a)..] == b[Ups(b)..]
    ensures a == b
    decreases |a|
  {
    if Ups(a) == 0 {
      assert a[0..] == a && b[0..] == b;
    } else {
      assert a[1..][Ups(a) - 1..] == a[Ups(a)..] && b[1..][Ups(b) - 1..] == b[Ups(b)..];
      SameStart(a[1..], b[1..]);
      assert a == [a[0]] + a[1..] && b == [b[0]] + b[1..];
    }
  }

  lemma SameReduced(rooted: bool, a: seq<string>, b: seq<string>)
    requires Reduced(rooted, a) && Reduced(rooted, b)
    requires forall cwd :: AllNames(cwd) ==>
               Walk(if rooted then [] else cwd, a) == Walk(if rooted then [] else cwd, b)
    ensures a == b
  {
    if rooted {
      NoUpsBelow(true, a);
      NoUpsBelow(true, b);
      WalkDown([], a);
      WalkDown([], b);
      assert AllNames([]) && [] + a == a && [] + b == b;
    } else if Ups(a) <= Ups(b) {
      SameUps(a, b);
    } else {
      SameUps(b, a);
    }
  }

  // Two paths are cleaned to the same string if and only if both or none are
  // absolute and they lead to the same place from every working directory.
  lemma SameCleanIff(p: string, q: string)
    ensures Clean(p) == Clean(q)
        <==> ("/" <= p <==> "/" <= q) && forall cwd :: AllNames(cwd) ==> Place(cwd, p) == Place(cwd, q)
  {
    CleanedBy(p);
    CleanedBy(q);
    if Clean(p) == Clean(q) {
      forall cwd | AllNames(cwd)
        ensures Place(cwd, p) == Place(cwd, q)
      {
        CleanKeepsPlace(cwd, p);
        CleanKeepsPlace(cwd, q);
      }
    }
    if ("/" <= p <==> "/" <= q) && forall cwd :: AllNames(cwd) ==> Place(cwd, p) == Place(cwd, q) {
      var rooted := Rooted(p);
      forall cwd | AllNames(cwd)
        ensures Walk(if rooted then [] else cwd, Parts(p)) == Walk(if rooted then [] else cwd, Parts(q))
      {
        assert Place(cwd, p) == Place(cwd, q);
        CleanKeepsPlace(cwd, p);
        CleanKeepsPlace(cwd, q);
        PlaceOfRender(cwd, rooted, Parts(p));
        PlaceOfRender(cwd, rooted, Parts(q));
      }
      SameReduced(rooted, Parts(p), Parts(q));
    }
  }

  lemma CleanedBy(path: string)
    ensures Reduced(Rooted(path), Parts(path)) && Clean(path) == Render(Rooted(path), Parts(path))
    ensures ("/" <= Clean(path) <==> "/" <= path) && (Rooted(path) <==> "/" <= path)
  {
    ElementsAreElements(path);
    ReduceIsReduced(Rooted(path), Elements(path));
    ElementsOfRender(Rooted(path), Parts(path));
    RootedIff(path);
    RootedIff(Clean(path));
  }

  // Going down and up again in the middle of a path, staying, and going up
  // from the root are cleaned away.
  lemma CleanedAway(a: string, name: string, b: string)
    requires Name(name)
    ensures Clean(a + "/" + name + "/../" + b) == Clean(a + "/" + b)
    ensures Clean(a + "/./" + b) == Clean(a + "/" + b)
    ensures Clean("/../" + b) == Clean("/" + b)
  {
    var up, down, stay, direct, root := "/../" + b, a + "/" + name, a + "/./" + b, a + "/" + b, "/" + b;
    forall cwd
      ensures Place(cwd, down + up) == Place(cwd, direct)
      ensures Place(cwd, stay) == Place(cwd, direct)
      ensures Place(cwd, up) == Place(cwd, root)
    {
      DownAndUp(cwd, a, name, b);
      Stay(cwd, a, b);
      UpFromRoot(cwd, b);
    }
    assert a + "/" + name + "/../" + b == down + up;
    SameStartSlash(a, name + up, b);
    assert a + "/" + (name + up) == down + up;
    SameStartSlash(a, "./" + b, b);
    assert a + "/" + ("./" + b) == stay;
    SameCleanIff(down + up, direct);
    SameCleanIff(stay, direct);
    SameCleanIff(up, root);
  }

  lemma {:induction false} WalkConcat(place: seq<string>, a: seq<string>, b: seq<string>)
    ensures Walk(place, a + b) == Walk(Walk(place, a), b)
    decreases |a|
  {
    if a == [] {
      assert a + b == b;
    } else {
      assert (a + b)[1..] == a[1..] + b;
      WalkConcat(Go(place, a[0]), a[1..], b);
    }
  }

  lemma Slashes(a: string, name: string, b: string)
    ensures a + "/" + name + ("/../" + b) == a + "/" + (name + "/" + (".." + "/" + b))
  {
    assert "/../" + b == "/" + (".." + "/" + b);
  }

  lemma DownAndUp(cwd: seq<string>, a: string, name: string, b: string)
    requires Name(name)
    ensures Place(cwd, a + "/" + name + ("/../" + b)) == Place(cwd, a + "/" + b)
  {
    hide Elements, Walk;
    Slashes(a, name, b);
    ElementsConcat(a, name + "/" + (".." + "/" + b));
    ElementsConcat(name, ".." + "/" + b);
    ElementsConcat("..", b);
    ElementsConcat(a, b);
    ElementsOfOne(name);
    ElementsOfOne("..");
    SameStartSlash(a, name + ("/../" + b), b);
    assert a + "/" + (name + ("/../" + b)) == a + "/" + name + ("/../" + b);
    Detour(if "/" <= a + "/" + b then [] else cwd, Elements(a), name, Elements(b));
  }

  lemma SameStartSlash(a: string, b: string, c: string)
    ensures "/" <= a + "/" + b <==> "/" <= a + "/" + c
  {
  }

  lemma Detour(start: seq<string>, a: seq<string>, name: string, b: seq<string>)
    requires Name(name)
    ensures Walk(start, a + ([name] + ([".."] + b))) == Walk(start, a + b)
  {
    var place := Walk(start, a);
    WalkConcat(start, a, [name] + ([".."] + b));
    WalkConcat(start, a, b);
    var way := [name] + ([".."] + b);
    assert way[1..] == [".."] + b && ([".."] + b)[1..] == b;
    assert Go(Go(place, name), "..") == place;
  }

  lemma Stay(cwd: seq<string>, a: string, b: string)
    ensures Place(cwd, a + "/./" + b) == Place(cwd, a + "/" + b)
  {
    var path := a + "/./" + b;
    assert path == a + "/" + ("." + "/" + b);
    ElementsConcat(a, "." + "/" + b);
    ElementsConcat(".", b);
    ElementsConcat(a, b);
    ElementsOfOne(".");
    var start := if "/" <= path then [] else cwd;
    assert "/" <= path <==> "/" <= a + "/" + b;
    WalkConcat(start, Elements(a), ["."] + Elements(b));
    WalkConcat(start, Elements(a), Elements(b));
    assert (["."] + Elements(b))[1..] == Elements(b);
  }

  lemma UpFromRoot(cwd: seq<string>, b: string)
    ensures Place(cwd, "/../" + b) == Place(cwd, "/" + b)
  {
    assert "/../" + b == "" + "/" + (".." + "/" + b) && "/" + b == "" + "/" + b;
    ElementsConcat("", ".." + "/" + b);
    ElementsConcat("..", b);
    ElementsConcat("", b);
    ElementsOfOne("..");
    assert Elements("") == [];
    assert ([".."] + Elements(b))[1..] == Elements(b);
    assert Elements("/../" + b) == [".."] + Elements(b) && Elements("/" + b) == Elements(b);
  }
}
