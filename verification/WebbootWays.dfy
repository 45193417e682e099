/** Where the program goes: what is picked in a menu is what comes next, the way
    down into the cache directory is the one Back undoes, an image that is
    downloaded or booted is the one that was asked for, and Ctrl-d exits. */
module WebbootWays {
  import opened Wrappers
  import opened Events
  import opened Paths
  import CacheDevice
  import opened MenuRuns
  import opened Webboot
  import opened WebbootRuns
  import LineEditor
  import Pager

  // ---- The main menu ----------------------------------------------------

  // The number in front of an entry, Enter, and whatever else.
  predicate Types(events: seq<Event>, i: nat, more: seq<Key>) {
    Keys(events) == Typing(Decimal(i)) + [Enter] + more
  }

  // The main menu offers the cache directory, if there is one, a download and
  // the log, in this order.
  lemma MainMenuTyped(s: Settings, m: Machine, events: seq<Event>, later: seq<seq<Event>>, i: nat, more: seq<Key>)
    requires Types(events, i, more) && i < (if s.cache.dir != "" then 3 else 2)
    ensures var first := if s.cache.dir != "" then i else i + 1;
            var next := MainMenu(s, m, [events] + later);
            && next == m.(entry := next.entry) && next.entry.Some?
            && (first == 0 ==> next.entry.value.DirOption? && next.entry.value.path == s.cache.dir)
            && (first == 1 ==> next.entry.value == DownloadOption)
            && (first == 2 ==> next.entry.value == LogOption)
  {
    hide Prompt;
    var entries := MainMenuEntries(s.cache.dir);
    TypedIsPicked(entries, [], events, i, more);
    assert ([events] + later)[0] == events;
  }

  // Escape shows it again, Ctrl-d is fatal there, and so it goes on.
  lemma MainMenuStops(s: Settings, m: Machine, events: seq<Event>, later: seq<seq<Event>>, more: seq<Key>)
    ensures Keys(events) == [Escape] + more ==> MainMenu(s, m, [events] + later) == MainMenu(s, m, later)
    ensures Keys(events) == [CtrlD] + more ==> MainMenu(s, m, [events] + later) == m.(status := FatalError)
    ensures MainMenu(s, m, []) == m.(status := Waiting)
  {
    hide Prompt;
    PromptStops(MainMenuEntries(s.cache.dir), [], events, more);
    assert ([events] + later)[0] == events && ([events] + later)[1..] == later;
  }

  // ---- After an error ---------------------------------------------------

  // A text that is displayed is left with a key that does not scroll.
  ghost predicate Dismissed(keys: seq<Key>) {
    exists i :: 0 <= i < |keys| && !Pager.Scrolls(keys[i])
  }

  // What comes of an error: Ctrl-d exits, Escape goes to the main menu, and any
  // other is displayed first.
  ghost predicate ErrorLeadsTo(s: Settings, m: Machine, error: Error, env: Env, next: Machine) {
    match error
    case ExitRequest => next == m.(status := Exited)
    case BackRequest => next == MainMenu(s, m, env.menuRounds)
    case Other(_) =>
      next == if Dismissed(Keys(env.resultEvents)) then MainMenu(s, m, env.menuRounds) else m.(status := Waiting)
  }

  lemma {:induction false} LeavesIff(keys: seq<Key>)
    ensures Pager.Leaves(keys) <==> Dismissed(keys)
  {
    if keys != [] {
      LeavesIff(keys[1..]);
      if i :| 0 <= i < |keys[1..]| && !Pager.Scrolls(keys[1..][i]) {
        assert !Pager.Scrolls(keys[i + 1]);
      }
      if i :| 0 <= i < |keys| && !Pager.Scrolls(keys[i]) {
        assert i > 0 ==> keys[1..][i - 1] == keys[i];
      }
    }
  }

  lemma ErrorIsHandled(s: Settings, m: Machine, error: Error, env: Env)
    ensures ErrorLeadsTo(s, m, error, env, HandleError(s, m, error, env))
  {
    LeavesIff(Keys(env.resultEvents));
  }

  // The log is displayed until such a key, too.
  lemma LogStep(s: Settings, m: Machine, env: Env)
    requires m.entry == Some(LogOption)
    ensures MainStep(s, m, env)
         == if Dismissed(Keys(env.resultEvents)) then MainMenu(s, m, env.menuRounds) else m.(status := Waiting)
  {
    LeavesIff(Keys(env.resultEvents));
  }

  // ---- In a directory ---------------------------------------------------

  // The entries stand in the order of the listing.
  lemma {:induction false} DirEntriesConcat(path: string, a: seq<Info>, b: seq<Info>)
    ensures DirEntries(path, a + b) == DirEntries(path, a) + DirEntries(path, b)
    decreases |b|
  {
    hide InfoEntry;
    if b == [] {
      assert a + b == a;
    } else {
      var before, last := b[..|b| - 1], b[|b| - 1];
      DirEntriesConcat(path, a, before);
      DirEntriesSnoc(path, a + before, last);
      DirEntriesSnoc(path, before, last);
      assert a + b == a + before + [last] && b == before + [last];
    }
  }

  lemma DirEntriesSnoc(path: string, infos: seq<Info>, info: Info)
    ensures DirEntries(path, infos + [info]) == DirEntries(path, infos) + InfoEntry(path, info)
  {
    assert (infos + [info])[..|infos|] == infos;
  }

  // Only names with the ending .iso count as images.
  lemma IsIsoIff(name: string)
    ensures IsIso(name) <==> exists stem :: name == stem + ".iso"
  {
    if IsIso(name) {
      assert name == name[..|name| - 4] + ".iso";
    }
    if stem :| name == stem + ".iso" {
      assert name[|name| - 4..] == ".iso";
    }
  }

  predicate InDirectory(m: Machine, path: string) {
    m.status == Running && m.entry.Some? && m.entry.value.DirOption? && m.entry.value.path == path
  }

  // The entry that is picked in a directory is the entry of the next round.
  lemma PickedIsNext(s: Settings, m: Machine, path: string, env: Env, e: Entry)
    requires InDirectory(m, path) && env.listing.Ok?
    requires Prompt(DirEntries(path, env.listing.value), [], env.dirEvents) == Picked(e)
    ensures MainStep(s, m, env) == m.(entry := Some(e))
  {
    hide Prompt, DirEntries;
  }

  // By the number in front of it.
  lemma TypedIsNext(s: Settings, m: Machine, path: string, env: Env, i: nat, more: seq<Key>)
    requires InDirectory(m, path) && env.listing.Ok? && Types(env.dirEvents, i, more)
    requires i < |DirEntries(path, env.listing.value)| <= MAX_INT
    ensures MainStep(s, m, env) == m.(entry := Some(DirEntries(path, env.listing.value)[i]))
  {
    hide Prompt, DirEntries;
    var entries := DirEntries(path, env.listing.value);
    TypedIsPicked(entries, [], env.dirEvents, i, more);
    PickedIsNext(s, m, path, env, entries[i]);
  }

  // Ctrl-d exits from every directory, and one that cannot be read is an error.
  lemma DirectoryStops(s: Settings, m: Machine, path: string, env: Env, more: seq<Key>)
    requires InDirectory(m, path)
    ensures env.listing.Ok? && DirEntries(path, env.listing.value) != [] && Keys(env.dirEvents) == [CtrlD] + more ==>
              MainStep(s, m, env) == m.(status := Exited)
    ensures env.listing.Err? ==> ErrorLeadsTo(s, m, Other(env.listing.error), env, MainStep(s, m, env))
  {
    hide Prompt, DirEntries;
    if env.listing.Ok? && DirEntries(path, env.listing.value) != [] {
      PromptStops(DirEntries(path, env.listing.value), [], env.dirEvents, more);
    }
    if env.listing.Err? {
      ErrorIsHandled(s, m, Other(env.listing.error), env);
    }
  }

  // ---- The way down -----------------------------------------------------

  // A subdirectory is picked by its name.
  predicate GoesInto(path: string, name: string, env: Env) {
    && env.listing.Ok?
    && var r := Prompt(DirEntries(path, env.listing.value), [], env.dirEvents);
       r.Picked? && r.entry.DirOption? && r.entry.dirLabel == name
  }

  predicate AllGoDown(path: string, names: seq<string>, envs: seq<Env>)
    decreases |names|
  {
    && |envs| == |names|
    && (names != [] ==> GoesInto(path, names[0], envs[0]) && AllGoDown(Join(path, names[0]), names[1..], envs[1..]))
  }

  lemma StepDown(s: Settings, m: Machine, path: string, name: string, env: Env)
    requires InDirectory(m, path) && GoesInto(path, name, env)
    ensures MainStep(s, m, env) == m.(entry := Some(DirOption(name, Join(path, name)))) && Name(name)
  {
    hide Prompt, DirEntries;
    var infos := env.listing.value;
    var e := Prompt(DirEntries(path, infos), [], env.dirEvents).entry;
    PickedIsNext(s, m, path, env, e);
    PromptOutcomes(DirEntries(path, infos), [], env.dirEvents);
    DirEntriesAre(path, infos, e);
    var info :| info in infos && Offers(path, info, e);
  }

  lemma {:induction false} DescendFront(dir: string, names: seq<string>)
    requires names != []
    ensures Descend(dir, names) == Descend(Join(dir, names[0]), names[1..])
    decreases |names|
  {
    var n := |names| - 1;
    if n > 0 {
      DescendFront(dir, names[..n]);
      assert names[..n][1..] == names[1..][..n - 1];
    } else {
      assert names[..n] == [];
    }
  }

  // Picking subdirectories by name, one after the other, leads down to them.
  lemma {:induction false} WayDown(s: Settings, m: Machine, path: string, names: seq<string>, envs: seq<Env>)
    requires InDirectory(m, path) && AllGoDown(path, names, envs)
    ensures AllNames(names)
    ensures InDirectory(RunMain(s, m, envs), Descend(path, names))
    ensures var end := RunMain(s, m, envs); end == m.(entry := end.entry)
    decreases |names|
  {
    hide GoesInto;
    if names != [] {
      StepDown(s, m, path, names[0], envs[0]);
      var next := MainStep(s, m, envs[0]);
      WayDown(s, next, Join(path, names[0]), names[1..], envs[1..]);
      DescendFront(path, names);
      assert names == [names[0]] + names[1..];
    }
  }

  lemma {:induction false} RunConcat(s: Settings, m: Machine, a: seq<Env>, b: seq<Env>)
    ensures RunMain(s, m, a + b) == RunMain(s, RunMain(s, m, a), b)
    decreases |a|
  {
    if a == [] {
      assert a + b == b;
    } else if m.status == Running {
      assert (a + b)[1..] == a[1..] + b;
      RunConcat(s, MainStep(s, m, a[0]), a[1..], b);
    }
  }

  // Down from the cache directory and as often Back: the run is at the cache
  // directory again, and once more Back leads to the main menu.
  lemma DownAndBack(s: Settings, m: Machine, names: seq<string>, down: seq<Env>, up: seq<Env>, last: Env)
    requires s.cache.dir != "" && IsClean(s.cache.dir) && InDirectory(m, s.cache.dir)
    requires AllGoDown(s.cache.dir, names, down) && AllGoBack(s.cache.dir, names, up) && GoesBack(s.cache.dir, last)
    ensures var top := RunMain(s, m, down + up);
            InDirectory(top, s.cache.dir) && MainStep(s, top, last) == MainMenu(s, top, last.menuRounds)
  {
    WayDown(s, m, s.cache.dir, names, down);
    RunConcat(s, m, down, up);
    BackToTheTop(s, RunMain(s, m, down), names, up, last);
  }

  // ---- Downloads --------------------------------------------------------

  // The link of a distro: what validURL accepts, or that of the first mirror
  // with the name that was picked.
  ghost predicate LinkIs(s: Settings, catalog: Catalog, env: Env, name: string, url: string) {
    if name == "Other Distro" then
      var typed := LineEditor.TextInput(s.validURL, env.urlEvents);
      typed.Accepted? && typed.input == url
    else
      && name in catalog.distros
      && var mirrors := catalog.distros[name].mirrors;
         exists i :: FirstNamed(mirrors, i) && mirrors[i].url == url &&
           PickedMirror(mirrors, env.mirrorEvents, mirrors[i].name)
  }

  predicate FirstNamed(mirrors: seq<Mirror>, i: int) {
    0 <= i < |mirrors| && forall j :: 0 <= j < i ==> mirrors[j].name != mirrors[i].name
  }

  predicate PickedMirror(mirrors: seq<Mirror>, events: seq<Event>, name: string) {
    var r := Prompt(MirrorEntries(mirrors), [], events);
    r.Picked? && r.entry.MirrorEntry? && r.entry.mirror.name == name
  }

  lemma MirrorLink(s: Settings, catalog: Catalog, env: Env, name: string, url: string)
    requires name != "Other Distro"
    ensures MirrorMenu(catalog, name, env.mirrorEvents) == Link(url) <==> LinkIs(s, catalog, env, name, url)
  {
    hide Prompt;
    if name in catalog.distros {
      var mirrors := catalog.distros[name].mirrors;
      var r := Prompt(MirrorEntries(mirrors), [], env.mirrorEvents);
      PromptOutcomes(MirrorEntries(mirrors), [], env.mirrorEvents);
      if r.Picked? {
        var mirror := r.entry.mirror;
        MirrorIsFirst(mirrors, mirror.name);
        if i :| FirstNamed(mirrors, i) && mirrors[i].url == url
                && PickedMirror(mirrors, env.mirrorEvents, mirrors[i].name) {
          OneFirst(mirrors, i, mirror.name);
        }
        if FirstMirror(mirrors, mirror.name) == Some(url) {
          var i :| 0 <= i < |mirrors| && mirrors[i] == Mirror(mirror.name, url) &&
            forall j :: 0 <= j < i ==> mirrors[j].name != mirror.name;
          assert FirstNamed(mirrors, i) && PickedMirror(mirrors, env.mirrorEvents, mirrors[i].name);
        }
      }
    }
  }

  lemma OneFirst(mirrors: seq<Mirror>, i: int, name: string)
    requires FirstNamed(mirrors, i) && mirrors[i].name == name
    ensures FirstMirror(mirrors, name) == Some(mirrors[i].url)
  {
    MirrorIsFirst(mirrors, name);
    var k :| 0 <= k < |mirrors| && mirrors[k] == Mirror(name, FirstMirror(mirrors, name).value) &&
      forall j :: 0 <= j < k ==> mirrors[j].name != name;
    assert mirrors[k].name == name && mirrors[i].name == name;
  }

  // Where mirrors have different names, typing a mirror's number gives its link.
  lemma MirrorTyped(catalog: Catalog, name: string, events: seq<Event>, i: nat, more: seq<Key>)
    requires name in catalog.distros && Types(events, i, more)
    requires i < |catalog.distros[name].mirrors| <= MAX_INT && FirstNamed(catalog.distros[name].mirrors, i)
    ensures MirrorMenu(catalog, name, events) == Link(catalog.distros[name].mirrors[i].url)
  {
    hide Prompt;
    var mirrors := catalog.distros[name].mirrors;
    TypedIsPicked(MirrorEntries(mirrors), [], events, i, more);
    OneFirst(mirrors, i, mirrors[i].name);
  }

  // The gate is open: the distro is not a supported one, or the checksum of the
  // file is the right one, or the user, being asked, said yes.
  predicate GateOpen(catalog: Catalog, name: string, env: Env) {
    name in catalog.distros ==>
      || ChecksumMatches(catalog.distros[name], env.verify)
      || (IsAsked(catalog.distros[name], env.verify) && Pager.Ask(env.confirmEvents) == Pager.Answered(true))
  }

  // The file of a link is stored under its own name below Downloaded in the
  // cache directory, or in the temporary directory where there is no cache.
  predicate StoredAt(s: Settings, url: string, title: string, path: string) {
    && title == Base(url) && title !in {".", "..", "/"}
    && path == if s.cache.dir == "" then Join(s.tempDir, title) else Join(Join(s.cache.dir, "Downloaded"), title)
  }

  ghost predicate Downloads(s: Settings, catalog: Catalog, env: Env, name: string, url: string,
                            title: string, path: string) {
    && Prompt(ConfigEntries(catalog.names + ["Other Distro"]), [], env.distroEvents) == Picked(Entry.Config(name))
    && LinkIs(s, catalog, env, name, url)
    && (s.cache.dir != "" ==> env.mkdirError.None?) && env.downloadError.None?
    && StoredAt(s, url, title, path) && GateOpen(catalog, name, env)
  }

  lemma LinkAsked(s: Settings, catalog: Catalog, env: Env, name: string, url: string)
    ensures AskLink(s, catalog, name, env) == Link(url) <==> LinkIs(s, catalog, env, name, url)
  {
    hide MirrorMenu;
    if name != "Other Distro" {
      MirrorLink(s, catalog, env, name, url);
    }
  }

  lemma LinkDownloads(s: Settings, catalog: Catalog, name: string, url: string, env: Env, title: string, path: string)
    ensures DownloadLink(s, catalog, name, url, env) == Returned(Some(ISO(title, path)), None)
        <==> && (s.cache.dir != "" ==> env.mkdirError.None?) && env.downloadError.None?
             && StoredAt(s, url, title, path) && GateOpen(catalog, name, env)
  {
    hide Pager.Ask;
    if name in catalog.distros {
      ChecksumGate(catalog, name, env.verify, env.confirmEvents);
    }
  }

  // Exactly when a download returns an image, and which.
  lemma DownloadsIff(s: Settings, catalog: Catalog, env: Env, title: string, path: string)
    ensures DownloadExec(s, catalog, env) == Returned(Some(ISO(title, path)), None)
        <==> exists name, url :: Downloads(s, catalog, env, name, url, title, path)
  {
    hide Prompt, AskLink, DownloadLink, LinkIs, StoredAt, GateOpen;
    var entries := ConfigEntries(catalog.names + ["Other Distro"]);
    PromptOutcomes(entries, [], env.distroEvents);
    var r := Prompt(entries, [], env.distroEvents);
    if r.Picked? {
      var name := r.entry.distroName;
      var link := AskLink(s, catalog, name, env);
      if link.Link? {
        LinkAsked(s, catalog, env, name, link.url);
        LinkDownloads(s, catalog, name, link.url, env, title, path);
        if DownloadLink(s, catalog, name, link.url, env) == Returned(Some(ISO(title, path)), None) {
          assert Downloads(s, catalog, env, name, link.url, title, path);
        }
      }
      forall n, url | Downloads(s, catalog, env, n, url, title, path)
        ensures n == name && link == Link(url)
      {
        LinkAsked(s, catalog, env, n, url);
      }
    }
  }

  // The image is the entry of the next round, with the list of distros fetched
  // for this one.
  lemma DownloadIsNext(s: Settings, m: Machine, env: Env, title: string, path: string)
    requires m.status == Running && m.entry == Some(DownloadOption)
    requires DownloadExec(s, Fetched(env), env) == Returned(Some(ISO(title, path)), None)
    ensures MainStep(s, m, env) == m.(entry := Some(ISO(title, path)), catalog := MainStep(s, m, env).catalog)
    ensures MainStep(s, m, env).catalog
         == match env.fetched case Some(catalog) => catalog case None => Listing(map[], [])
  {
    hide DownloadExec;
  }

  lemma DownloadStops(s: Settings, m: Machine, env: Env, more: seq<Key>)
    requires m.status == Running && m.entry == Some(DownloadOption)
    ensures Keys(env.distroEvents) == [CtrlD] + more ==>
              MainStep(s, m, env) == m.(catalog := Fetched(env), status := Exited)
    ensures Keys(env.distroEvents) == [Escape] + more ==>
              MainStep(s, m, env) == MainMenu(s, m.(catalog := Fetched(env)), env.menuRounds)
  {
    hide Prompt;
    PromptStops(ConfigEntries(Fetched(env).names + [OTHER_DISTRO]), [], env.distroEvents, more);
  }

  // ---- Images -----------------------------------------------------------

  // The distro an image is taken for: the one its name tells, or else the one
  // the user picks.
  predicate TakenFor(catalog: Catalog, env: Env, name: string) {
    && name in catalog.distros
    && if env.inferred in catalog.distros then name == env.inferred
       else Prompt(ConfigEntries(catalog.names), [], env.typeEvents) == Picked(Config(name))
  }

  // Its boot configurations: those of the image, then the custom ones.
  predicate Configurations(d: Distro, env: Env, images: seq<string>) {
    && (d.bootConfig != "" ==> env.parsed.Ok?) && (d.customConfigs != 0 ==> env.custom.Ok?)
    && images == (if d.bootConfig != "" then env.parsed.value else [])
                 + (if d.customConfigs != 0 then env.custom.value else [])
  }

  // A configuration is chosen.
  ghost predicate Chooses(catalog: Catalog, env: Env, image: string) {
    exists name, images ::
      && TakenFor(catalog, env, name) && Configurations(catalog.distros[name], env, images)
      && Prompt(seq(|images|, i requires 0 <= i < |images| => BootConfig(images[i])), [], env.configEvents)
         == Picked(BootConfig(image))
  }

  lemma MenuOfConfigs(s: Settings, images: seq<string>, env: Env, image: string)
    requires Prompt(BootConfigs(images), [], env.configEvents) == Picked(BootConfig(image))
    ensures BootMenu(s, images, env).1
    ensures BootMenu(s, images, env).0 == IsoBooted(image)
        <==> env.templateError.None? && !s.dryRun && env.boot.BootSucceeds?
    ensures BootMenu(s, images, env).0.IsoBooted? ==> BootMenu(s, images, env).0.image == image
  {
    hide Prompt;
    PromptOutcomes(BootConfigs(images), [], env.configEvents);
  }

  lemma MenuNotChosen(s: Settings, images: seq<string>, env: Env)
    requires !Prompt(BootConfigs(images), [], env.configEvents).Picked?
    ensures !BootMenu(s, images, env).1 && !BootMenu(s, images, env).0.IsoBooted?
  {
    hide Prompt;
  }

  lemma DistroOf(s: Settings, catalog: Catalog, env: Env, name: string)
    requires TakenFor(catalog, env, name)
    ensures IsoExecOf(s, catalog, env)
         == match Images(catalog.distros[name], env)
            case Err(error) => (IsoReturned(Some(error)), false)
            case Ok(images) => BootMenu(s, images, env)
  {
    hide Prompt, BootMenu, Images;
  }

  lemma SomeDistro(catalog: Catalog, env: Env) returns (name: string)
    requires env.inferred in catalog.distros || Prompt(ConfigEntries(catalog.names), [], env.typeEvents).Picked?
    ensures TakenFor(catalog, env, name)
  {
    hide Prompt;
    if env.inferred in catalog.distros {
      return env.inferred;
    }
    var r := Prompt(ConfigEntries(catalog.names), [], env.typeEvents);
    PromptOutcomes(ConfigEntries(catalog.names), [], env.typeEvents);
    name := r.entry.distroName;
    assert r == Picked(Config(name));
  }

  lemma NoDistro(s: Settings, catalog: Catalog, env: Env)
    requires forall name :: !TakenFor(catalog, env, name)
    ensures !IsoExecOf(s, catalog, env).1 && !IsoExecOf(s, catalog, env).0.IsoBooted?
  {
    hide Prompt, BootMenu, Images, TakenFor;
    if env.inferred in catalog.distros || Prompt(ConfigEntries(catalog.names), [], env.typeEvents).Picked? {
      var name := SomeDistro(catalog, env);
    }
  }

  lemma OneDistro(catalog: Catalog, env: Env, a: string, b: string)
    requires TakenFor(catalog, env, a) && TakenFor(catalog, env, b)
    ensures a == b
  {
  }

  lemma ImagesIff(d: Distro, env: Env, images: seq<string>)
    ensures Images(d, env) == Ok(images) <==> Configurations(d, env, images)
  {
  }

  // Exactly when an image is booted, and with which configuration: the one that
  // was chosen, unless the kernel parameters, --dryrun or kexec prevent it.
  // IsoPath is set exactly when one was chosen.
  lemma BootsIff(s: Settings, catalog: Catalog, env: Env, image: string)
    ensures IsoExecOf(s, catalog, env).0 == IsoBooted(image)
        <==> Chooses(catalog, env, image) && env.templateError.None? && !s.dryRun && env.boot.BootSucceeds?
    ensures Chooses(catalog, env, image) ==> IsoExecOf(s, catalog, env).1
    ensures IsoExecOf(s, catalog, env).1 ==> exists chosen :: Chooses(catalog, env, chosen)
  {
    hide Prompt, BootMenu, Images, IsoExecOf, TakenFor, Configurations;
    if name :| TakenFor(catalog, env, name) {
      DistroOf(s, catalog, env, name);
      BootsTaken(s, catalog, env, name, image);
    } else {
      NoDistro(s, catalog, env);
    }
  }

  lemma BootsTaken(s: Settings, catalog: Catalog, env: Env, name: string, image: string)
    requires TakenFor(catalog, env, name)
    requires IsoExecOf(s, catalog, env)
          == match Images(catalog.distros[name], env)
             case Err(error) => (IsoReturned(Some(error)), false)
             case Ok(images) => BootMenu(s, images, env)
    ensures IsoExecOf(s, catalog, env).0 == IsoBooted(image)
        <==> Chooses(catalog, env, image) && env.templateError.None? && !s.dryRun && env.boot.BootSucceeds?
    ensures Chooses(catalog, env, image) ==> IsoExecOf(s, catalog, env).1
    ensures IsoExecOf(s, catalog, env).1 ==> exists chosen :: Chooses(catalog, env, chosen)
  {
    hide Prompt, BootMenu, Images, IsoExecOf, Configurations;
    var d := catalog.distros[name];
    forall n | TakenFor(catalog, env, n)
      ensures n == name
    {
      OneDistro(catalog, env, n, name);
    }
    forall images
      ensures Images(d, env) == Ok(images) <==> Configurations(d, env, images)
    {
      ImagesIff(d, env, images);
    }
    match Images(d, env)
    case Err(_) =>
    case Ok(images) =>
      var r := Prompt(BootConfigs(images), [], env.configEvents);
      PromptOutcomes(BootConfigs(images), [], env.configEvents);
      if r.Picked? {
        assert r == Picked(BootConfig(r.entry.image));
        MenuOfConfigs(s, images, env, r.entry.image);
        assert Chooses(catalog, env, r.entry.image);
      } else {
        MenuNotChosen(s, images, env);
      }
  }

  // After an image: booted, waiting, or back at the main menu through an error.
  lemma ImageStep(s: Settings, m: Machine, path: string, env: Env)
    requires m.status == Running && m.entry.Some? && m.entry.value.ISO? && m.entry.value.path == path
    ensures var (r, chosen) := IsoExecOf(s, m.catalog, env);
            var next := if chosen then m.(isoPath := MainStep(s, m, env).isoPath) else m;
            match r
            case IsoBooted(image) => MainStep(s, m, env) == next.(status := Booted(image))
            case IsoHung => MainStep(s, m, env) == next.(status := Waiting)
            case IsoReturned(None) => false
            case IsoReturned(Some(error)) => ErrorLeadsTo(s, next, error, env, MainStep(s, m, env))
  {
    hide IsoExecOf;
    IsoAlwaysFails(s, m.catalog, env);
    var (r, chosen) := IsoExecOf(s, m.catalog, env);
    var next := if chosen then m.(isoPath := CacheDevice.IsoPath(path, s.cache.mountPoint)) else m;
    if chosen {
      IsoPathStays(s, m, env);
    }
    if r.IsoReturned? && r.error.Some? {
      ErrorIsHandled(s, next, r.error.value, env);
    }
  }

  // ---- What the menus say -----------------------------------------------

  lemma Labels(title: string, path: string, mirror: Mirror)
    ensures LabelOf(LogOption) == "Show last log" && LabelOf(DownloadOption) == "Download an ISO"
    ensures LabelOf(ISO(title, path)) == title && LabelOf(DirOption(title, path)) == title
    ensures LabelOf(Config(title)) == title && LabelOf(BootConfig(title)) == title
    ensures LabelOf(MirrorEntry(mirror)) == mirror.name
    ensures MainMenuEntries("/") == [DirOption("Use Cached ISO", "/"), DownloadOption, LogOption]
  {
  }
}
