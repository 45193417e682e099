/** The cache device of cmds/webboot/webboot.go: where the cache directory is
    found, and the path of an ISO relative to the mount point. */
module CacheDevice {
  import opened Wrappers
  import opened Paths

  // ---- strings.ReplaceAll(s, word, "") -----------------------------------

  function RemoveAll(s: string, word: string): (r: string)
    decreases |s|
  {
    if word == "" || s == "" then s
    else if word <= s then RemoveAll(s[|word|..], word)
    else [s[0]] + RemoveAll(s[1..], word)
  }

  predicate Contains(s: string, t: string) {
    t <= s || (s != "" && Contains(s[1..], t))
  }

  lemma {:induction false} RemoveAllShrinks(s: string, word: string)
    requires word != ""
    ensures |RemoveAll(s, word)| <= |s|
    ensures RemoveAll(s, word) == s <==> !Contains(s, word)
    decreases |s|
  {
    if s != "" {
      if word <= s {
        RemoveAllShrinks(s[|word|..], word);
      } else {
        RemoveAllShrinks(s[1..], word);
        assert [s[0]] + s[1..] == s;
        assert RemoveAll(s, word)[1..] == RemoveAll(s[1..], word);
      }
    }
  }

  lemma {:induction false} ContainsIff(s: string, t: string)
    ensures Contains(s, t) <==> exists i :: 0 <= i <= |s| && t <= s[i..]
  {
    assert s[0..] == s;
    if s == "" {
      assert s[0..] == "";
    } else {
      ContainsIff(s[1..], t);
      if i :| 0 <= i <= |s| && t <= s[i..] {
        if i > 0 {
          assert s[1..][i - 1..] == s[i..];
        }
      }
      if i :| 0 <= i <= |s[1..]| && t <= s[1..][i..] {
        assert s[1..][i..] == s[i + 1..];
      }
    }
  }

  // The first occurrence is taken out, and the search goes on behind it.
  lemma {:induction false} RemoveFirst(before: string, word: string, after: string)
    requires word != ""
    requires forall i :: 0 <= i < |before| ==> !(word <= (before + word + after)[i..])
    ensures RemoveAll(before + word + after, word) == before + RemoveAll(after, word)
    decreases |before|
  {
    var s := before + word + after;
    if before == "" {
      assert s == word + after && s[|word|..] == after;
    } else {
      var rest := before[1..];
      var shorter := rest + word + after;
      assert s[0..] == s && s[1..] == shorter && s[0] == before[0];
      forall i | 0 <= i < |rest|
        ensures !(word <= shorter[i..])
      {
        assert shorter[i..] == s[i + 1..];
      }
      RemoveFirst(rest, word, after);
      assert RemoveAll(s, word) == [s[0]] + RemoveAll(shorter, word);
      assert [before[0]] + (rest + RemoveAll(after, word)) == before + RemoveAll(after, word);
    }
  }

  // The path of an ISO on the mounted device.
  function IsoPath(path: string, mountPoint: string): string {
    RemoveAll(path, mountPoint)
  }

  // Mount point and ISO path make up the whole path exactly when the mount
  // point does not occur again after itself.
  lemma IsoPathIff(mountPoint: string, rest: string)
    ensures mountPoint + IsoPath(mountPoint + rest, mountPoint) == mountPoint + rest
        <==> mountPoint == "" || !Contains(rest, mountPoint)
  {
    var path := mountPoint + rest;
    if mountPoint != "" {
      assert mountPoint <= path && path[|mountPoint|..] == rest;
      assert IsoPath(path, mountPoint) == RemoveAll(rest, mountPoint);
      RemoveAllShrinks(rest, mountPoint);
      var iso := IsoPath(path, mountPoint);
      assert (mountPoint + iso)[|mountPoint|..] == iso;
    }
  }

  // ---- Paths below a mount point ----------------------------------------

  // Each name with a slash in front.
  function Slashed(names: seq<string>): string {
    if names == [] then "" else Slashed(names[..|names| - 1]) + "/" + names[|names| - 1]
  }

  // Where devices are mounted: an absolute directory below the root.
  predicate MountPoint(mp: string) {
    IsClean(mp) && Rooted(mp) && Parts(mp) != []
  }

  lemma JoinBelow(dir: string, name: string)
    requires MountPoint(dir) && Name(name)
    ensures Join(dir, name) == dir + "/" + name && MountPoint(Join(dir, name))
  {
    CleanParts(dir);
    JoinName(dir, name);
    var es := Parts(dir);
    assert (es + [name])[..|es|] == es;
  }

  lemma {:induction false} DescendBelow(dir: string, names: seq<string>)
    requires MountPoint(dir) && AllNames(names)
    ensures Descend(dir, names) == dir + Slashed(names) && MountPoint(Descend(dir, names))
  {
    if names == [] {
      assert dir + "" == dir;
    } else {
      var before, name := names[..|names| - 1], names[|names| - 1];
      DescendBelow(dir, before);
      var up := Descend(dir, before);
      JoinBelow(up, name);
      assert Descend(dir, names) == up + "/" + name;
      Regroup(dir, Slashed(before), "/", name);
    }
  }

  lemma Regroup(a: string, b: string, c: string, d: string)
    ensures a + b + c + d == a + (b + c + d)
  {
  }

  // ---- The cache directory ----------------------------------------------

  // What becomes of a block device: where it is mounted, if it is, and
  // whether it has a directory Images.
  datatype Device = Device(mounted: Option<string>, hasImages: bool)

  predicate HasCache(d: Device) {
    d.mounted.Some? && d.hasImages
  }

  datatype Cache = Cache(dir: string, mountPoint: string)

  const NO_CACHE := Cache("", "")

  method GetCachedDirectory(devices: seq<Device>) returns (cache: Option<Cache>)
    ensures cache.None? <==> forall i :: 0 <= i < |devices| ==> !HasCache(devices[i])
    ensures cache.Some? ==>
      exists i :: 0 <= i < |devices| && HasCache(devices[i]) && (forall j :: 0 <= j < i ==> !HasCache(devices[j])) &&
        cache.value == Cache(Join(devices[i].mounted.value, "Images"), devices[i].mounted.value)
  {
    for i := 0 to |devices|
      invariant forall j :: 0 <= j < i ==> !HasCache(devices[j])
    {
      var device := devices[i];
      if device.mounted == None {
        continue;
      }
      var cachePath := Join(device.mounted.value, "Images");
      if device.hasImages {
        return Some(Cache(cachePath, device.mounted.value));
      }
    }
    cache := None;
  }

  // The start of main: the directory given on the command line, cleaned, or
  // else the one that is found.
  function SetUp(dirFlag: string, found: Option<Cache>): Cache {
    if dirFlag != "" then Cache(Clean(dirFlag), "")
    else match found
         case None => NO_CACHE
         case Some(cache) => cache
  }

  // The directory given on the command line goes before one that is found,
  // and then no mount point is known.
  lemma DirFlagWins(dirFlag: string, found: Option<Cache>)
    ensures dirFlag != "" ==> SetUp(dirFlag, found).dir == Clean(dirFlag) && SetUp(dirFlag, found).mountPoint == ""
    ensures dirFlag == "" && found.Some? ==> SetUp(dirFlag, found) == found.value
    ensures dirFlag == "" && found.None? ==> SetUp(dirFlag, found) == Cache("", "")
  {
  }

  // A cache that was found on a device.
  predicate Discovered(cache: Cache) {
    MountPoint(cache.mountPoint) && cache.dir == Join(cache.mountPoint, "Images")
  }

  // Whatever lies below a discovered cache directory is "/Images/..." on the
  // device.
  lemma BelowImages(cache: Cache, names: seq<string>)
    requires Discovered(cache) && AllNames(names)
    ensures IsClean(cache.dir)
    ensures Descend(cache.dir, names) == cache.mountPoint + ("/Images" + Slashed(names))
  {
    JoinBelow(cache.mountPoint, "Images");
    assert IsClean(cache.dir);
    DescendBelow(cache.dir, names);
    Regroup(cache.mountPoint, "/", "Images", Slashed(names));
    assert "/" + "Images" == "/Images";
  }

  lemma SlashedStart(names: seq<string>)
    requires names != []
    ensures Slashed(names) != "" && Slashed(names)[0] == '/'
  {
    if |names| > 1 {
      SlashedStart(names[..|names| - 1]);
    }
  }
}
