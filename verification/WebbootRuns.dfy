/** Whole runs of the program: the loop never meets nil or an unknown entry,
    browsing stays below the cache directory and Back leads out of it level by
    level, downloads pass the checksum gate. */
module WebbootRuns {
  import opened Wrappers
  import opened Events
  import opened Paths
  import opened CacheDevice
  import opened MenuRuns
  import opened Webboot
  import Pager

  // What main sets up: no cache directory, or a clean one.
  predicate Usable(s: Settings) {
    s.cache.dir == "" || IsClean(s.cache.dir)
  }

  // The set-up of main is usable, whatever the flag and the devices.
  lemma SetUpIsUsable(dirFlag: string, found: Option<Cache>, s: Settings)
    requires found.Some? ==> exists mp :: found.value == Cache(Join(mp, "Images"), mp)
    requires s.cache == SetUp(dirFlag, found)
    ensures Usable(s)
    ensures s.cache.dir == "" <==> dirFlag == "" && found == None
  {
    CleanIsClean(dirFlag);
    CleanParts(Clean(dirFlag));
    if found.Some? {
      var mp :| found.value == Cache(Join(mp, "Images"), mp);
      CleanIsClean(if mp == "" then "Images" else mp + "/" + "Images");
      CleanParts(found.value.dir);
    }
  }

  // ---- The invariant of the loop ----------------------------------------

  // path is dir with some names below it.
  ghost predicate Below(dir: string, path: string) {
    exists names :: AllNames(names) && path == Descend(dir, names)
  }

  ghost predicate StrictlyBelow(dir: string, path: string) {
    exists names :: names != [] && AllNames(names) && path == Descend(dir, names)
  }

  // The entries the loop can come to.
  ghost predicate Expected(s: Settings, e: Entry) {
    match e
    case LogOption => true
    case DownloadOption => true
    case DirOption(_, path) => s.cache.dir != "" && Below(s.cache.dir, path)
    case ISO(_, path) =>
      if s.cache.dir != "" then StrictlyBelow(s.cache.dir, path)
      else exists name :: Name(name) && path == Join(s.tempDir, name)
    case _ => false
  }

  ghost predicate Inv(s: Settings, m: Machine) {
    && m.status != Finished
    && (m.status == Running ==> m.entry.Some? && Expected(s, m.entry.value))
  }

  lemma {:induction false} MainMenuExpected(s: Settings, m: Machine, rounds: seq<seq<Event>>)
    requires m.status == Running
    ensures Inv(s, MainMenu(s, m, rounds))
    decreases |rounds|
  {
    if rounds != [] {
      PromptOutcomes(MainMenuEntries(s.cache.dir), [], rounds[0]);
      var r := Prompt(MainMenuEntries(s.cache.dir), [], rounds[0]);
      if r == Refused(BackRequest) {
        MainMenuExpected(s, m, rounds[1..]);
      } else if r.Picked? && r.entry.DirOption? {
        assert Descend(s.cache.dir, []) == s.cache.dir;
      }
    }
  }

  lemma HandleErrorExpected(s: Settings, m: Machine, error: Error, env: Env)
    requires m.status == Running
    ensures Inv(s, HandleError(s, m, error, env))
  {
    MainMenuExpected(s, m, env.menuRounds);
  }

  lemma BelowJoin(dir: string, path: string, name: string)
    requires Below(dir, path) && Name(name)
    ensures StrictlyBelow(dir, Join(path, name)) && Below(dir, Join(path, name))
  {
    var names :| AllNames(names) && path == Descend(dir, names);
    var more := names + [name];
    assert more[..|names|] == names;
    assert AllNames(more) && Join(path, name) == Descend(dir, more);
  }

  lemma {:induction false} DirEntriesExpected(s: Settings, path: string, infos: seq<Info>, e: Entry)
    requires s.cache.dir != "" && Below(s.cache.dir, path)
    requires e in DirEntries(path, infos)
    ensures Expected(s, e)
  {
    var last := infos[|infos| - 1];
    if e in InfoEntry(path, last) {
      BelowJoin(s.cache.dir, path, last.name);
    } else {
      DirEntriesExpected(s, path, infos[..|infos| - 1], e);
    }
  }

  // What a directory entry is offered as, if it is.
  predicate Offers(path: string, info: Info, e: Entry) {
    || (info.isDir && e == DirOption(info.name, Join(path, info.name)))
    || (!info.isDir && IsIso(info.name) && e == ISO(info.name, Join(path, info.name)))
  }

  lemma InfoEntryIs(path: string, info: Info, e: Entry)
    ensures e in InfoEntry(path, info) <==> Offers(path, info, e)
  {
  }

  // The menu of a directory offers its subdirectories and its .iso files.
  lemma {:induction false} DirEntriesAre(path: string, infos: seq<Info>, e: Entry)
    ensures e in DirEntries(path, infos) <==> exists info :: info in infos && Offers(path, info, e)
  {
    hide InfoEntry, Offers;
    if infos != [] {
      var last := |infos| - 1;
      assert infos == infos[..last] + [infos[last]];
      DirEntriesAre(path, infos[..last], e);
      InfoEntryIs(path, infos[last], e);
      assert e in DirEntries(path, infos) <==> e in DirEntries(path, infos[..last]) || Offers(path, infos[last], e);
    }
  }

  // Going up from below the cache directory, but not from it, stays below it.
  lemma BelowDir(dir: string, path: string)
    requires IsClean(dir) && Below(dir, path) && path != dir
    ensures Below(dir, Dir(path))
  {
    var names :| AllNames(names) && path == Descend(dir, names);
    DirOfDescend(dir, names);
    assert AllNames(names[..|names| - 1]);
  }

  lemma DirStep(s: Settings, m: Machine, env: Env)
    requires Usable(s) && Inv(s, m) && m.status == Running && m.entry.value.DirOption?
    ensures Inv(s, MainStep(s, m, env))
  {
    var path := m.entry.value.path;
    var r := DirExec(path, env);
    if r.Returned? {
      if env.listing.Ok? {
        PromptOutcomes(DirEntries(path, env.listing.value), [], env.dirEvents);
      }
      if r.error.Some? {
        HandleErrorExpected(s, m, r.error.value, env);
        if path != s.cache.dir {
          BelowDir(s.cache.dir, path);
        }
      } else {
        DirEntriesExpected(s, path, env.listing.value, r.entry.value);
      }
    }
  }

  // Where a download is stored.
  lemma DownloadPathExpected(s: Settings, filename: string)
    requires Usable(s) && Name(filename)
    ensures Expected(s, ISO(filename, DownloadPath(s, filename)))
  {
    var dir := s.cache.dir;
    if dir != "" {
      assert Descend(dir, []) == dir;
      BelowJoin(dir, dir, "Downloaded");
      BelowJoin(dir, Join(dir, "Downloaded"), filename);
    }
  }

  lemma DownloadLinkExpected(s: Settings, catalog: Catalog, name: string, url: string, env: Env)
    requires Usable(s)
    ensures var r := DownloadLink(s, catalog, name, url, env);
            r.Returned? && r.error.None? ==> r.entry.Some? && Expected(s, r.entry.value)
  {
    hide DownloadPath, Prompt, Name;
    if DownloadError(Base(url), env).None? {
      BaseIsName(url);
      DownloadPathExpected(s, Base(url));
    }
  }

  // DownloadOption.exec returns an error or one of two kinds of entry.
  lemma DownloadExpected(s: Settings, catalog: Catalog, env: Env)
    requires Usable(s)
    ensures var r := DownloadExec(s, catalog, env);
            r.Returned? && r.error.None? ==> r.entry.Some? && Expected(s, r.entry.value)
  {
    hide DownloadLink, Expected, Prompt, AskLink;
    var r := DownloadExec(s, catalog, env);
    if r.Returned? && r.error.None? {
      var picked := Prompt(ConfigEntries(catalog.names + [OTHER_DISTRO]), [], env.distroEvents);
      var link := AskLink(s, catalog, LabelOf(picked.entry), env);
      DownloadLinkExpected(s, catalog, LabelOf(picked.entry), link.url, env);
    }
  }

  // ISO.exec never returns without an error.
  lemma IsoAlwaysFails(s: Settings, catalog: Catalog, env: Env)
    ensures var r := IsoExecOf(s, catalog, env).0;
            r.IsoReturned? ==> r.error.Some?
  {
  }

  lemma StepKeepsInv(s: Settings, m: Machine, env: Env)
    requires Usable(s) && Inv(s, m) && m.status == Running
    ensures Inv(s, MainStep(s, m, env))
  {
    match m.entry.value
    case LogOption =>
      MainMenuExpected(s, m, env.menuRounds);
    case DownloadOption =>
      var catalog := Fetched(env);
      var next := m.(catalog := catalog);
      var r := DownloadExec(s, catalog, env);
      DownloadExpected(s, catalog, env);
      if r.Returned? && r.error.Some? {
        HandleErrorExpected(s, next, r.error.value, env);
      }
    case ISO(_, path) =>
      var (r, chosen) := IsoExecOf(s, m.catalog, env);
      var next := if chosen then m.(isoPath := IsoPath(path, s.cache.mountPoint)) else m;
      IsoAlwaysFails(s, m.catalog, env);
      if r.IsoReturned? {
        HandleErrorExpected(s, next, r.error.value, env);
      }
    case DirOption(_, _) =>
      DirStep(s, m, env);
  }

  lemma {:induction false} RunKeepsInv(s: Settings, m: Machine, envs: seq<Env>)
    requires Usable(s) && Inv(s, m)
    ensures Inv(s, RunMain(s, m, envs))
    decreases |envs|
  {
    if envs != [] && m.status == Running {
      StepKeepsInv(s, m, envs[0]);
      RunKeepsInv(s, MainStep(s, m, envs[0]), envs[1..]);
    }
  }

  // In every run, at every head of the loop, the entry is not nil and of one
  // of the four kinds, directories and images below the cache directory; the
  // loop does not end but by an exit, a fatal error or a boot.
  lemma EveryRun(s: Settings, rounds: seq<seq<Event>>, envs: seq<Env>)
    requires Usable(s)
    ensures var m := RunMain(s, Begin(s, rounds), envs);
            && (m.status in {Running, Exited, FatalError, Waiting} || m.status.Booted?)
            && (m.status == Running ==> m.entry.Some? && Expected(s, m.entry.value))
  {
    MainMenuExpected(s, Machine(None, NO_DISTROS, "", Running), rounds);
    RunKeepsInv(s, Begin(s, rounds), envs);
  }

  // ---- Back -------------------------------------------------------------

  // The directory is read again, has something to show, and the user goes back.
  predicate GoesBack(path: string, env: Env) {
    && env.listing.Ok?
    && DirEntries(path, env.listing.value) != []
    && Prompt(DirEntries(path, env.listing.value), [], env.dirEvents) == Refused(BackRequest)
  }

  // A menu with entries is gone back from by Escape.
  lemma EscapeGoesBack(path: string, env: Env)
    requires env.listing.Ok? && DirEntries(path, env.listing.value) != []
    requires env.dirEvents == [Event(KeyboardEvent, "<Escape>")]
    ensures GoesBack(path, env)
  {
    assert Keys(env.dirEvents) == [Escape] + Keys(env.dirEvents[1..]);
    assert TextKeys([Escape]) == [Escape] + TextKeys([Escape][1..]);
  }

  // An empty directory cannot be gone back from: whatever is typed, it is an
  // error that leads to the main menu.
  lemma EmptyDirectory(path: string, env: Env)
    requires env.listing.Ok? && DirEntries(path, env.listing.value) == []
    ensures DirExec(path, env).Returned? && DirExec(path, env).error.Some?
    ensures DirExec(path, env).error.value !in {BackRequest, ExitRequest}
  {
  }

  // A round in a directory the user goes back from.
  lemma BackRound(s: Settings, m: Machine, env: Env)
    requires m.entry.Some? && m.entry.value.DirOption? && GoesBack(m.entry.value.path, env)
    ensures MainStep(s, m, env)
         == if m.entry.value.path == s.cache.dir then MainMenu(s, m, env.menuRounds)
            else m.(entry := Some(DirOption("", Dir(m.entry.value.path))))
  {
    var r := DirExec(m.entry.value.path, env);
    assert r == Returned(None, Some(BackRequest));
    assert HandleError(s, m, BackRequest, env) == MainMenu(s, m, env.menuRounds);
    assert Dispatch(s, m, r, env) == HandleError(s, m, BackRequest, env);
  }

  lemma BackStep(s: Settings, m: Machine, names: seq<string>, env: Env)
    requires s.cache.dir != "" && IsClean(s.cache.dir) && AllNames(names)
    requires m.status == Running && m.entry.Some? && m.entry.value.DirOption?
    requires m.entry.value.path == Descend(s.cache.dir, names)
    requires GoesBack(m.entry.value.path, env)
    ensures MainStep(s, m, env)
         == if names == [] then MainMenu(s, m, env.menuRounds)
            else m.(entry := Some(DirOption("", Descend(s.cache.dir, names[..|names| - 1]))))
  {
    var path := m.entry.value.path;
    assert path == s.cache.dir <==> names == [] by {
      DescendInjective(s.cache.dir, names, []);
    }
    assert names != [] ==> Dir(path) == Descend(s.cache.dir, names[..|names| - 1]) by {
      if names != [] {
        DirOfDescend(s.cache.dir, names);
      }
    }
    BackRound(s, m, env);
  }

  // The environments of going back level by level from below dir.
  predicate AllGoBack(dir: string, names: seq<string>, envs: seq<Env>) {
    && |envs| == |names|
    && (names != [] ==>
          GoesBack(Descend(dir, names), envs[0]) && AllGoBack(dir, names[..|names| - 1], envs[1..]))
  }

  // From d levels below the cache directory, d times Back lead to the cache
  // directory, and once more to the main menu.
  lemma {:induction false} BackToTheTop(s: Settings, m: Machine, names: seq<string>, envs: seq<Env>, last: Env)
    requires s.cache.dir != "" && IsClean(s.cache.dir) && AllNames(names)
    requires m.status == Running && m.entry.Some? && m.entry.value.DirOption?
    requires m.entry.value.path == Descend(s.cache.dir, names)
    requires AllGoBack(s.cache.dir, names, envs) && GoesBack(s.cache.dir, last)
    ensures var top := RunMain(s, m, envs);
            top.status == Running && top.entry.Some? && top.entry.value.DirOption? &&
            top.entry.value.path == s.cache.dir &&
            MainStep(s, top, last) == MainMenu(s, top, last.menuRounds)
    decreases |names|
  {
    if names == [] {
      BackStep(s, m, names, last);
    } else {
      BackStep(s, m, names, envs[0]);
      BackToTheTop(s, MainStep(s, m, envs[0]), names[..|names| - 1], envs[1..], last);
    }
  }

  // ---- The checksum gate ------------------------------------------------

  // The checksum of the distro is known and is that of the file.
  predicate ChecksumMatches(distro: Distro, verify: Result<string, string>) {
    distro.checksum != "" && verify == Ok(distro.checksum)
  }

  // The user is asked, because there is no checksum or it is not that of the
  // file. A checksum that cannot be calculated is an error instead.
  predicate IsAsked(distro: Distro, verify: Result<string, string>) {
    distro.checksum == "" || (verify.Ok? && verify.value != distro.checksum)
  }

  // A supported distro gets past the gate exactly when its checksum matches
  // or the user, being asked, says yes; saying no leads to the download menu.
  // Escape and Ctrl-d at the question neither go back nor exit: they end as an
  // error like any other, and there is no other error but a failed hash.
  lemma ChecksumGate(catalog: Catalog, name: string, verify: Result<string, string>, events: seq<Event>)
    requires name in catalog.distros
    ensures var distro := catalog.distros[name];
            var r := ChecksumPrompt(catalog, name, verify, events);
            && (r == Returned(None, None)
                <==> || ChecksumMatches(distro, verify)
                     || (IsAsked(distro, verify) && Pager.Ask(events) == Pager.Answered(true)))
            && (r == Returned(Some(DownloadOption), None)
                <==> IsAsked(distro, verify) && Pager.Ask(events) == Pager.Answered(false))
            && (r.Returned? && r.error.Some?
                <==> (distro.checksum != "" && verify.Err?) || (IsAsked(distro, verify) && Pager.Ask(events).Declined?))
            && (r.Returned? ==> r.error !in {Some(BackRequest), Some(ExitRequest)})
            && (r == Hung <==> IsAsked(distro, verify) && Pager.Ask(events) == Pager.Undecided)
  {
  }

  // The deciding Enter among the keys finds 0 as the last of 0, 1, Backspace.
  ghost predicate SaidYes(keys: seq<Key>) {
    exists i: nat :: Pager.Decides(keys, i) && Pager.LastMark(keys[..i]) == "0"
  }

  // Every image of a supported distro that DownloadOption.exec returns has a
  // matching checksum or was confirmed.
  lemma DownloadsAreChecked(s: Settings, catalog: Catalog, env: Env, name: string)
    requires Prompt(ConfigEntries(catalog.names + [OTHER_DISTRO]), [], env.distroEvents) == Picked(Config(name))
    requires name in catalog.distros
    requires var r := DownloadExec(s, catalog, env); r.Returned? && r.entry.Some? && r.entry.value.ISO?
    ensures ChecksumMatches(catalog.distros[name], env.verify)
         || (IsAsked(catalog.distros[name], env.verify) && SaidYes(Keys(env.confirmEvents)))
  {
    ChecksumGate(catalog, name, env.verify, env.confirmEvents);
    Pager.AnswerIsLastMark(Keys(env.confirmEvents), true);
  }

  // A refusal leads back to the download menu: the next round of the loop is
  // DownloadOption again.
  lemma RefusalReturns(s: Settings, m: Machine, env: Env, name: string, url: string)
    requires m.status == Running && m.entry == Some(DownloadOption) && env.fetched.Some?
    requires Prompt(ConfigEntries(env.fetched.value.names + [OTHER_DISTRO]), [], env.distroEvents)
          == Picked(Config(name))
    requires name in env.fetched.value.distros && AskLink(s, env.fetched.value, name, env) == Link(url)
    requires (s.cache.dir == "" || env.mkdirError == None) && DownloadError(Base(url), env) == None
    requires IsAsked(env.fetched.value.distros[name], env.verify)
    requires Pager.Ask(env.confirmEvents) == Pager.Answered(false)
    ensures MainStep(s, m, env) == m.(catalog := env.fetched.value)
  {
    hide Prompt, AskLink, ChecksumPrompt, DownloadPath, DownloadError;
    ChecksumGate(env.fetched.value, name, env.verify, env.confirmEvents);
  }

  // ---- Where images come from, and what is booted ------------------------

  ghost predicate Listed(m: Machine, env: Env, e: Entry) {
    && m.entry.Some? && m.entry.value.DirOption? && env.listing.Ok?
    && exists info :: info in env.listing.value && Offers(m.entry.value.path, info, e)
  }

  // The distro was picked and, if it is a supported one, the gate passed.
  ghost predicate Checked(env: Env, name: string) {
    var catalog := Fetched(env);
    && Prompt(ConfigEntries(catalog.names + [OTHER_DISTRO]), [], env.distroEvents) == Picked(Config(name))
    && (name in catalog.distros ==>
          || ChecksumMatches(catalog.distros[name], env.verify)
          || (IsAsked(catalog.distros[name], env.verify) && SaidYes(Keys(env.confirmEvents))))
  }

  ghost predicate Downloaded(m: Machine, env: Env) {
    m.entry == Some(DownloadOption) && exists name :: Checked(env, name)
  }

  predicate AtImage(m: Machine) {
    m.status == Running && m.entry.Some? && m.entry.value.ISO?
  }

  lemma {:induction false} MainMenuHasNoImage(s: Settings, m: Machine, rounds: seq<seq<Event>>)
    ensures !AtImage(MainMenu(s, m, rounds))
    ensures MainMenu(s, m, rounds).status.Booted? ==> m.status.Booted?
    decreases |rounds|
  {
    if rounds != [] {
      PromptOutcomes(MainMenuEntries(s.cache.dir), [], rounds[0]);
      MainMenuHasNoImage(s, m, rounds[1..]);
    }
  }

  lemma ListedImage(s: Settings, m: Machine, env: Env)
    requires m.status == Running && m.entry.Some? && m.entry.value.DirOption?
    requires AtImage(MainStep(s, m, env))
    ensures Listed(m, env, MainStep(s, m, env).entry.value)
  {
    var path := m.entry.value.path;
    MainMenuHasNoImage(s, m, env.menuRounds);
    var infos := env.listing.value;
    PromptOutcomes(DirEntries(path, infos), [], env.dirEvents);
    DirEntriesAre(path, infos, MainStep(s, m, env).entry.value);
  }

  lemma DownloadedImage(s: Settings, m: Machine, env: Env)
    requires m.status == Running && m.entry == Some(DownloadOption)
    requires AtImage(MainStep(s, m, env))
    ensures Downloaded(m, env)
  {
    hide DownloadExec;
    var catalog := Fetched(env);
    MainMenuHasNoImage(s, m.(catalog := catalog), env.menuRounds);
    ImagePicked(s, catalog, env);
    var name :| Prompt(ConfigEntries(catalog.names + [OTHER_DISTRO]), [], env.distroEvents) == Picked(Config(name));
    if name in catalog.distros {
      DownloadsAreChecked(s, catalog, env, name);
    }
    assert Checked(env, name);
  }

  lemma ImagePicked(s: Settings, catalog: Catalog, env: Env)
    ensures var r := DownloadExec(s, catalog, env);
            r.Returned? && r.error.None? ==>
              exists name ::
                Prompt(ConfigEntries(catalog.names + [OTHER_DISTRO]), [], env.distroEvents) == Picked(Config(name))
  {
    var entries := ConfigEntries(catalog.names + [OTHER_DISTRO]);
    PromptOutcomes(entries, [], env.distroEvents);
    var picked := Prompt(entries, [], env.distroEvents);
    if picked.Picked? {
      assert picked == Picked(Config(LabelOf(picked.entry)));
    }
  }

  lemma AfterImage(s: Settings, m: Machine, env: Env)
    requires m.status == Running && m.entry.Some? && !m.entry.value.DirOption? && !m.entry.value.DownloadOption?
    ensures !AtImage(MainStep(s, m, env))
    ensures MainStep(s, m, env).status.Booted? ==> m.entry.value.ISO? && !s.dryRun
  {
    MainMenuHasNoImage(s, m, env.menuRounds);
    if m.entry.value.ISO? {
      IsoAlwaysFails(s, m.catalog, env);
      MainMenuHasNoImage(s, m.(isoPath := IsoPath(m.entry.value.path, s.cache.mountPoint)), env.menuRounds);
    }
  }

  // In every run, an image the loop comes to was offered by the directory it
  // comes from, or was downloaded and, for a supported distro, has the right
  // checksum or was confirmed.
  lemma EveryImage(s: Settings, rounds: seq<seq<Event>>, envs: seq<Env>, env: Env)
    requires Usable(s)
    requires var m := RunMain(s, Begin(s, rounds), envs);
             m.status == Running && AtImage(MainStep(s, m, env))
    ensures var m := RunMain(s, Begin(s, rounds), envs);
            Listed(m, env, MainStep(s, m, env).entry.value) || Downloaded(m, env)
  {
    EveryRun(s, rounds, envs);
    var m := RunMain(s, Begin(s, rounds), envs);
    match m.entry.value
    case DirOption(_, _) => ListedImage(s, m, env);
    case DownloadOption => DownloadedImage(s, m, env);
    case _ => AfterImage(s, m, env);
  }

  lemma NotBooted(s: Settings, m: Machine, env: Env)
    requires Usable(s) && Inv(s, m) && m.status == Running && s.dryRun
    ensures !MainStep(s, m, env).status.Booted?
  {
    match m.entry.value
    case DirOption(_, _) => MainMenuHasNoImage(s, m, env.menuRounds);
    case DownloadOption => MainMenuHasNoImage(s, m.(catalog := Fetched(env)), env.menuRounds);
    case _ => AfterImage(s, m, env);
  }

  lemma {:induction false} NotBootedLater(s: Settings, m: Machine, envs: seq<Env>)
    requires Usable(s) && Inv(s, m) && !m.status.Booted? && s.dryRun
    ensures !RunMain(s, m, envs).status.Booted?
    decreases |envs|
  {
    if envs != [] && m.status == Running {
      StepKeepsInv(s, m, envs[0]);
      NotBooted(s, m, envs[0]);
      NotBootedLater(s, MainStep(s, m, envs[0]), envs[1..]);
    }
  }

  // With --dryrun no run ends in a boot.
  lemma DryRunNeverBoots(s: Settings, rounds: seq<seq<Event>>, envs: seq<Env>)
    requires Usable(s) && s.dryRun
    ensures !RunMain(s, Begin(s, rounds), envs).status.Booted?
  {
    var start := Machine(None, NO_DISTROS, "", Running);
    MainMenuExpected(s, start, rounds);
    MainMenuHasNoImage(s, start, rounds);
    NotBootedLater(s, Begin(s, rounds), envs);
  }

  // mirrorMenu gives the link of the first mirror with the name that was picked.
  lemma {:induction false} MirrorIsFirst(mirrors: seq<Mirror>, name: string)
    ensures FirstMirror(mirrors, name).None? <==> forall i :: 0 <= i < |mirrors| ==> mirrors[i].name != name
    ensures FirstMirror(mirrors, name).Some? ==>
      exists i :: 0 <= i < |mirrors| && mirrors[i] == Mirror(name, FirstMirror(mirrors, name).value) &&
        forall j :: 0 <= j < i ==> mirrors[j].name != name
  {
    if mirrors != [] && mirrors[0].name != name {
      var rest := mirrors[1..];
      MirrorIsFirst(rest, name);
      if FirstMirror(rest, name).None? {
        forall i | 0 <= i < |mirrors|
          ensures mirrors[i].name != name
        {
          assert i > 0 ==> mirrors[i] == rest[i - 1];
        }
      } else {
        var i :| 0 <= i < |rest| && rest[i] == Mirror(name, FirstMirror(rest, name).value) &&
          forall j :: 0 <= j < i ==> rest[j].name != name;
        forall j | 0 <= j < i + 1
          ensures mirrors[j].name != name
        {
          assert j > 0 ==> mirrors[j] == rest[j - 1];
        }
        assert mirrors[i + 1] == rest[i];
      }
    } else if mirrors != [] {
      assert mirrors[0] == Mirror(name, mirrors[0].url);
    }
  }

  // ---- The path of the ISO on its device --------------------------------

  // In every run with a discovered cache, an image at the head of the loop
  // lies at "/Images/..." below the mount point, and choosing a configuration
  // sets IsoPath to just that, unless the mount point occurs in it again.
  lemma IsoPathOfRun(s: Settings, rounds: seq<seq<Event>>, envs: seq<Env>, env: Env)
      returns (rest: string)
    requires Discovered(s.cache)
    ensures var m := RunMain(s, Begin(s, rounds), envs);
            AtImage(m) ==>
              && m.entry.value.path == s.cache.mountPoint + rest
              && "/Images/" <= rest
              && (IsoExecOf(s, m.catalog, env).1 ==>
                    (MainStep(s, m, env).isoPath == rest <==> !Contains(rest, s.cache.mountPoint)))
  {
    var m := RunMain(s, Begin(s, rounds), envs);
    rest := "";
    if AtImage(m) {
      BelowImages(s.cache, []);
      assert s.cache.dir != "" by {
        CleanParts(s.cache.dir);
      }
      EveryRun(s, rounds, envs);
      rest := BelowMountPoint(s.cache, m.entry.value.path);
      IsoPathIsRest(s.cache.mountPoint, rest);
      if IsoExecOf(s, m.catalog, env).1 {
        IsoPathStays(s, m, env);
      }
    }
  }

  lemma BelowMountPoint(cache: Cache, path: string) returns (rest: string)
    requires Discovered(cache) && StrictlyBelow(cache.dir, path)
    ensures path == cache.mountPoint + rest && "/Images/" <= rest
  {
    var names :| names != [] && AllNames(names) && path == Descend(cache.dir, names);
    BelowImages(cache, names);
    SlashedStart(names);
    rest := "/Images" + Slashed(names);
    assert rest[..8] == "/Images/";
  }

  lemma IsoPathIsRest(mountPoint: string, rest: string)
    requires MountPoint(mountPoint)
    ensures IsoPath(mountPoint + rest, mountPoint) == rest <==> !Contains(rest, mountPoint)
  {
    CleanParts(mountPoint);
    IsoPathIff(mountPoint, rest);
    var iso := IsoPath(mountPoint + rest, mountPoint);
    assert (mountPoint + iso)[|mountPoint|..] == iso;
    assert (mountPoint + rest)[|mountPoint|..] == rest;
  }

  lemma {:induction false} MainMenuKeepsIsoPath(s: Settings, m: Machine, rounds: seq<seq<Event>>)
    ensures MainMenu(s, m, rounds).isoPath == m.isoPath
    decreases |rounds|
  {
    if rounds != [] {
      MainMenuKeepsIsoPath(s, m, rounds[1..]);
    }
  }

  lemma IsoPathStays(s: Settings, m: Machine, env: Env)
    requires m.entry.Some? && m.entry.value.ISO? && IsoExecOf(s, m.catalog, env).1
    ensures MainStep(s, m, env).isoPath == IsoPath(m.entry.value.path, s.cache.mountPoint)
  {
    MainMenuKeepsIsoPath(s, m.(isoPath := IsoPath(m.entry.value.path, s.cache.mountPoint)), env.menuRounds);
  }
}
