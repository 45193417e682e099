/** The program of cmds/webboot/webboot.go: the main menu, the exec methods of
    the entries, the checksum gate and the main loop. What the user types comes
    as events, one stream for each prompt; what the system answers comes with
    the environment of the round. */
module Webboot {
  import opened Wrappers
  import opened Events
  import opened Paths
  import opened CacheDevice
  import opened MenuRuns
  import LineEditor
  import Pager

  datatype Mirror = Mirror(name: string, url: string)

  datatype Distro = Distro(checksum: string, bootConfig: string, customConfigs: nat, mirrors: seq<Mirror>)

  // supportedDistros, with its names in the order of the menus.
  datatype Listing = Listing(distros: map<string, Distro>, names: seq<string>)

  ghost predicate NamesAll(l: Listing) {
    forall name :: name in l.names <==> name in l.distros
  }

  const NO_DISTROS := Listing(map[], [])

  type Catalog = l: Listing | NamesAll(l) witness NO_DISTROS

  // Everything that is shown in a menu.
  datatype Entry =
    | LogOption
    | DownloadOption
    | ISO(isoLabel: string, path: string)
    | DirOption(dirLabel: string, path: string)
    | Config(distroName: string)
    | MirrorEntry(mirror: Mirror)
    | BootConfig(image: string)

  function LabelOf(e: Entry): string {
    match e
    case LogOption => "Show last log"
    case DownloadOption => "Download an ISO"
    case ISO(name, _) => name
    case DirOption(name, _) => name
    case Config(name) => name
    case MirrorEntry(mirror) => mirror.name
    case BootConfig(image) => image
  }

  // What exec returns: an entry or nil and an error or nil, if it returns.
  datatype Exec = Returned(entry: Option<Entry>, error: Option<Error>) | Hung

  // An image that is booted does not come back.
  datatype IsoExec = IsoReturned(error: Option<Error>) | IsoBooted(image: string) | IsoHung

  datatype Boot = BootSucceeds | BootReturns | BootFails(message: string)

  // A directory entry as the system lists it.
  type FileName = s: string | Name(s) witness "a"

  datatype Info = Info(name: FileName, isDir: bool)

  datatype Env = Env(
    resultEvents: seq<Event>,                 // a displayed message
    menuRounds: seq<seq<Event>>,              // the main menu, each time it is shown
    listing: Result<seq<Info>, string>,       // ioutil.ReadDir
    dirEvents: seq<Event>,
    fetched: Option<Catalog>,                 // distroData; None if it failed
    distroEvents: seq<Event>, urlEvents: seq<Event>, mirrorEvents: seq<Event>,
    mkdirError: Option<string>, downloadError: Option<string>,
    verify: Result<string, string>,           // the calculated checksum
    confirmEvents: seq<Event>,
    inferred: string,                         // inferIsoType
    typeEvents: seq<Event>,
    parsed: Result<seq<string>, string>,      // ParseConfigFromISO
    custom: Result<seq<string>, string>,      // LoadCustomConfigs
    configEvents: seq<Event>,
    templateError: Option<string>, boot: Boot)

  datatype Settings = Settings(cache: Cache, tempDir: string, dryRun: bool, validURL: LineEditor.ValidCheck)

  datatype Status = Running | Finished | Exited | FatalError | Booted(image: string) | Waiting

  datatype Machine = Machine(entry: Option<Entry>, catalog: Catalog, isoPath: string, status: Status)

  // ---- The main menu ----------------------------------------------------

  function MainMenuEntries(cacheDir: string): seq<Entry> {
    (if cacheDir != "" then [DirOption("Use Cached ISO", cacheDir)] else []) + [DownloadOption, LogOption]
  }

  // getMainMenu, and what becomes of the machine.
  function MainMenu(s: Settings, m: Machine, rounds: seq<seq<Event>>): Machine
    decreases |rounds|
  {
    if rounds == [] then m.(status := Waiting)
    else
      match Prompt(MainMenuEntries(s.cache.dir), [], rounds[0])
      case Blocked => m.(status := Waiting)
      case Refused(error) =>
        if error == BackRequest then MainMenu(s, m, rounds[1..]) else m.(status := FatalError)
      case Picked(entry) => m.(entry := Some(entry))
  }

  // handleError, and the main menu after it.
  function HandleError(s: Settings, m: Machine, error: Error, env: Env): Machine {
    if error == ExitRequest then m.(status := Exited)
    else if error != BackRequest && !Pager.Leaves(Keys(env.resultEvents)) then m.(status := Waiting)
    else MainMenu(s, m, env.menuRounds)
  }

  // ---- DirOption --------------------------------------------------------

  // filepath.Ext(name) == ".iso"
  predicate IsIso(name: string) {
    |name| >= 4 && name[|name| - 4..] == ".iso"
  }

  function InfoEntry(path: string, info: Info): seq<Entry> {
    if info.isDir then [DirOption(info.name, Join(path, info.name))]
    else if IsIso(info.name) then [ISO(info.name, Join(path, info.name))]
    else []
  }

  function DirEntries(path: string, infos: seq<Info>): seq<Entry> {
    if infos == [] then []
    else DirEntries(path, infos[..|infos| - 1]) + InfoEntry(path, infos[|infos| - 1])
  }

  function FromPrompt(r: Prompted<Entry>): Exec {
    match r
    case Blocked => Hung
    case Refused(error) => Returned(None, Some(error))
    case Picked(entry) => Returned(Some(entry), None)
  }

  function DirExec(path: string, env: Env): Exec {
    match env.listing
    case Err(message) => Returned(None, Some(Other(message)))
    case Ok(infos) => FromPrompt(Prompt(DirEntries(path, infos), [], env.dirEvents))
  }

  // ---- DownloadOption ---------------------------------------------------

  const OTHER_DISTRO := "Other Distro"

  function ConfigEntries(names: seq<string>): seq<Entry> {
    seq(|names|, i requires 0 <= i < |names| => Config(names[i]))
  }

  function FirstMirror(mirrors: seq<Mirror>, name: string): Option<string> {
    if mirrors == [] then None
    else if mirrors[0].name == name then Some(mirrors[0].url)
    else FirstMirror(mirrors[1..], name)
  }

  // A link, the error instead, or no answer.
  datatype Link = Link(url: string) | NoLink(error: Error) | LinkHung

  function MirrorEntries(mirrors: seq<Mirror>): seq<Entry> {
    seq(|mirrors|, i requires 0 <= i < |mirrors| => MirrorEntry(mirrors[i]))
  }

  function LinkOf(mirrors: seq<Mirror>, name: string): Link {
    match FirstMirror(mirrors, name)
    case Some(url) => Link(url)
    case None => NoLink(Other("Mirror not found: " + name))
  }

  function MirrorMenu(catalog: Catalog, name: string, events: seq<Event>): Link {
    var mirrors := if name in catalog.distros then catalog.distros[name].mirrors else [];
    if mirrors == [] then LinkOf(mirrors, name)
    else
      match Prompt(MirrorEntries(mirrors), [], events)
      case Blocked => LinkHung
      case Refused(error) => NoLink(error)
      case Picked(entry) => LinkOf(mirrors, LabelOf(entry))
  }

  function AskLink(s: Settings, catalog: Catalog, name: string, env: Env): Link {
    if name == OTHER_DISTRO then
      match LineEditor.TextInput(s.validURL, env.urlEvents)
      case Accepted(url, _) => Link(url)
      case Stopped(error) => NoLink(error)
      case _ => LinkHung
    else MirrorMenu(catalog, name, env.mirrorEvents)
  }

  // displayChecksumPrompt: no entry and no error means go on.
  function ChecksumPrompt(catalog: Catalog, name: string, verify: Result<string, string>, events: seq<Event>): Exec {
    if name !in catalog.distros then Returned(None, None)
    else
      var checksum := catalog.distros[name].checksum;
      if checksum != "" && verify.Err? then Returned(None, Some(Other("Failed to verify checksum: " + verify.error)))
      else if checksum != "" && verify.value == checksum then Returned(None, None)
      else
        match Pager.Ask(events)
        case Undecided => Hung
        case Declined(_) => Returned(None, Some(Other("Failed to prompt confirmation")))
        case Answered(true) => Returned(None, None)
        case Answered(false) => Returned(Some(DownloadOption), None)
  }

  function DownloadPath(s: Settings, filename: string): string {
    if s.cache.dir == "" then Join(s.tempDir, filename) else Join(Join(s.cache.dir, "Downloaded"), filename)
  }

  // The error of download. A file cannot be created in the place of an
  // existing directory, which is what ".", ".." and "/" would be; any other
  // base is a name (Paths.BaseIsName).
  function DownloadError(filename: string, env: Env): Option<string> {
    match env.downloadError
    case Some(message) => Some(message)
    case None => if filename in {".", "..", "/"} then Some("is a directory") else None
  }

  function DownloadLink(s: Settings, catalog: Catalog, name: string, url: string, env: Env): Exec {
    var filename := Base(url);
    if s.cache.dir != "" && env.mkdirError.Some? then
      Returned(None, Some(Other("Fail to create the downloaded dir :" + env.mkdirError.value)))
    else if DownloadError(filename, env).Some? then
      Returned(None, Some(Other(DownloadError(filename, env).value)))
    else
      var gate := ChecksumPrompt(catalog, name, env.verify, env.confirmEvents);
      if gate == Returned(None, None) then Returned(Some(ISO(filename, DownloadPath(s, filename))), None) else gate
  }

  function DownloadExec(s: Settings, catalog: Catalog, env: Env): Exec {
    match Prompt(ConfigEntries(catalog.names + [OTHER_DISTRO]), [], env.distroEvents)
    case Blocked => Hung
    case Refused(error) => Returned(None, Some(error))
    case Picked(entry) =>
      match AskLink(s, catalog, LabelOf(entry), env)
      case LinkHung => Hung
      case NoLink(error) => Returned(None, Some(error))
      case Link(url) => DownloadLink(s, catalog, LabelOf(entry), url, env)
  }

  // ---- ISO --------------------------------------------------------------

  function BootConfigs(images: seq<string>): seq<Entry> {
    seq(|images|, i requires 0 <= i < |images| => BootConfig(images[i]))
  }

  const NO_DISTRO := Distro("", "", 0, [])

  // The boot configurations of an ISO taken for a distro.
  function Images(distro: Distro, env: Env): Result<seq<string>, Error> {
    if distro.bootConfig != "" && env.parsed.Err? then Err(Other(env.parsed.error))
    else if distro.customConfigs != 0 && env.custom.Err? then Err(Other(env.custom.error))
    else
      Ok((if distro.bootConfig != "" then env.parsed.value else [])
         + (if distro.customConfigs != 0 then env.custom.value else []))
  }

  // From the choice of a configuration on; true if cacheDev.IsoPath is set.
  function BootMenu(s: Settings, images: seq<string>, env: Env): (IsoExec, bool) {
    if images == [] then (IsoReturned(Some(Other("No valid configs were found."))), false)
    else
      match Prompt(BootConfigs(images), [], env.configEvents)
      case Blocked => (IsoHung, false)
      case Refused(error) => (IsoReturned(Some(error)), false)
      case Picked(config) =>
        if env.templateError.Some? then (IsoReturned(Some(Other(env.templateError.value))), true)
        else if s.dryRun then (IsoReturned(Some(Other("Booting is disabled (see --dryrun flag)"))), true)
        else
          match env.boot
          case BootSucceeds => (IsoBooted(LabelOf(config)), true)
          case BootReturns => (IsoReturned(Some(Other("kexec failed, but gave no error."))), true)
          case BootFails(message) => (IsoReturned(Some(Other(message))), true)
  }

  function IsoExecOf(s: Settings, catalog: Catalog, env: Env): (IsoExec, bool) {
    var typed :=
      if env.inferred in catalog.distros then Picked(Config(env.inferred))
      else Prompt(ConfigEntries(catalog.names), [], env.typeEvents);
    match typed
    case Blocked => (IsoHung, false)
    case Refused(error) => (IsoReturned(Some(error)), false)
    case Picked(entry) =>
      var distro := if LabelOf(entry) in catalog.distros then catalog.distros[LabelOf(entry)] else NO_DISTRO;
      match Images(distro, env)
      case Err(error) => (IsoReturned(Some(error)), false)
      case Ok(images) => BootMenu(s, images, env)
  }

  // supportedDistros after distroData, whose error is ignored.
  function Fetched(env: Env): Catalog {
    match env.fetched
    case Some(catalog) => catalog
    case None => NO_DISTROS
  }

  // ---- The main loop ----------------------------------------------------

  function Dispatch(s: Settings, m: Machine, r: Exec, env: Env): Machine {
    match r
    case Hung => m.(status := Waiting)
    case Returned(entry, None) => m.(entry := entry)
    case Returned(_, Some(error)) => HandleError(s, m, error, env)
  }

  // One round of the loop over entry.
  function MainStep(s: Settings, m: Machine, env: Env): Machine {
    match m.entry
    case None => m.(status := Finished)
    case Some(LogOption) =>
      if Pager.Leaves(Keys(env.resultEvents)) then MainMenu(s, m, env.menuRounds) else m.(status := Waiting)
    case Some(DownloadOption) =>
      var catalog := Fetched(env);
      Dispatch(s, m.(catalog := catalog), DownloadExec(s, catalog, env), env)
    case Some(ISO(_, path)) =>
      var (r, chosen) := IsoExecOf(s, m.catalog, env);
      var next := if chosen then m.(isoPath := IsoPath(path, s.cache.mountPoint)) else m;
      (match r
       case IsoHung => next.(status := Waiting)
       case IsoBooted(image) => next.(status := Booted(image))
       case IsoReturned(None) => next
       case IsoReturned(Some(error)) => HandleError(s, next, error, env))
    case Some(DirOption(_, path)) =>
      var r := DirExec(path, env);
      if r.Returned? && r.error == Some(BackRequest) && path != s.cache.dir then
        m.(entry := Some(DirOption("", Dir(path))))
      else Dispatch(s, m, r, env)
    case Some(_) => HandleError(s, m, Other("Unknown menu type"), env)
  }

  function RunMain(s: Settings, m: Machine, envs: seq<Env>): Machine
    decreases |envs|
  {
    if envs == [] || m.status != Running then m else RunMain(s, MainStep(s, m, envs[0]), envs[1..])
  }

  // The machine when the loop is entered.
  function Begin(s: Settings, rounds: seq<seq<Event>>): Machine {
    MainMenu(s, Machine(None, NO_DISTROS, "", Running), rounds)
  }

  class Program {
    const settings: Settings
    var entry: Option<Entry>
    var supportedDistros: Catalog
    var isoPath: string
    var status: Status

    function State(): Machine
      reads this
    {
      Machine(entry, supportedDistros, isoPath, status)
    }

    constructor (settings: Settings, rounds: seq<seq<Event>>)
      ensures this.settings == settings && State() == Begin(settings, rounds)
    {
      this.settings := settings;
      entry := None;
      supportedDistros := NO_DISTROS;
      isoPath := "";
      status := Running;
      new;
      GetMainMenu(rounds);
    }

    method GetMainMenu(rounds: seq<seq<Event>>)
      modifies this
      ensures State() == MainMenu(settings, old(State()), rounds)
    {
      var entries: seq<Entry> := [];
      if settings.cache.dir != "" {
        entries := entries + [DirOption("Use Cached ISO", settings.cache.dir)];
      }
      entries := entries + [DownloadOption];
      entries := entries + [LogOption];
      assert entries == MainMenuEntries(settings.cache.dir);
      ghost var before := State();
      var rest := rounds;
      while rest != []
        invariant State() == before
        invariant MainMenu(settings, before, rounds) == MainMenu(settings, before, rest)
        decreases |rest|
      {
        var r, _ := PromptMenuEntry(entries, LabelOf, rest[0], []);
        rest := rest[1..];
        match r {
          case Blocked =>
            status := Waiting;
            return;
          case Refused(error) =>
            if error != BackRequest {
              status := FatalError;
              return;
            }
          case Picked(picked) =>
            entry := Some(picked);
            return;
        }
      }
      status := Waiting;
    }

    method HandleErrorThenMenu(error: Error, env: Env)
      modifies this
      ensures State() == HandleError(settings, old(State()), error, env)
    {
      if error == ExitRequest {
        status := Exited;
        return;
      }
      if error != BackRequest {
        var text := [error.message];
        var shown := Pager.DisplayResult(text, env.resultEvents);
        Pager.LeftIffLeaves(Pager.WrapAll(text), Pager.Top(Pager.WrapAll(text)), Keys(env.resultEvents));
        if shown == Pager.Waiting {
          status := Waiting;
          return;
        }
      }
      GetMainMenu(env.menuRounds);
    }

    // DirOption.exec
    method ExecDir(path: string, env: Env) returns (r: Exec)
      ensures r == DirExec(path, env)
    {
      match env.listing {
        case Err(message) =>
          return Returned(None, Some(Other(message)));
        case Ok(infos) =>
          var entries: seq<Entry> := [];
          for i := 0 to |infos|
            invariant entries == DirEntries(path, infos[..i])
          {
            var info := infos[i];
            assert infos[..i + 1][..i] == infos[..i];
            if info.isDir {
              entries := entries + [DirOption(info.name, Join(path, info.name))];
            } else if IsIso(info.name) {
              entries := entries + [ISO(info.name, Join(path, info.name))];
            }
          }
          assert infos[..|infos|] == infos;
          var picked, _ := PromptMenuEntry(entries, LabelOf, env.dirEvents, []);
          r := FromPrompt(picked);
      }
    }

    // mirrorMenu
    method AskMirror(name: string, events: seq<Event>) returns (r: Link)
      ensures r == MirrorMenu(supportedDistros, name, events)
    {
      var mirrors := if name in supportedDistros.distros then supportedDistros.distros[name].mirrors else [];
      var wanted := name;
      if |mirrors| > 0 {
        var picked, _ := PromptMenuEntry(MirrorEntries(mirrors), LabelOf, events, []);
        match picked {
          case Blocked => return LinkHung;
          case Refused(error) => return NoLink(error);
          case Picked(mirror) => wanted := LabelOf(mirror);
        }
      }
      for i := 0 to |mirrors|
        invariant FirstMirror(mirrors, wanted) == FirstMirror(mirrors[i..], wanted)
      {
        assert mirrors[i..][1..] == mirrors[i + 1..];
        if mirrors[i].name == wanted {
          return Link(mirrors[i].url);
        }
      }
      r := NoLink(Other("Mirror not found: " + wanted));
    }

    // displayChecksumPrompt
    method DisplayChecksumPrompt(name: string, env: Env) returns (r: Exec)
      ensures r == ChecksumPrompt(supportedDistros, name, env.verify, env.confirmEvents)
    {
      if name in supportedDistros.distros {
        var distro := supportedDistros.distros[name];
        if distro.checksum == "" {
          var question := "This distro does not have a checksum. Proceed anyway?";
          var accept, _ := Pager.PromptConfirmation(question, env.confirmEvents);
          match accept {
            case Undecided => return Hung;
            case Declined(_) => return Returned(None, Some(Other("Failed to prompt confirmation")));
            case Answered(yes) =>
              if !yes {
                return Returned(Some(DownloadOption), None);
              }
          }
        } else if env.verify.Err? {
          return Returned(None, Some(Other("Failed to verify checksum: " + env.verify.error)));
        } else if env.verify.value != distro.checksum {
          var question := "Checksum was not correct. The correct checksum is " + distro.checksum
            + " and the downloaded ISO's checksum is " + env.verify.value + ". Proceed anyway?";
          var accept, _ := Pager.PromptConfirmation(question, env.confirmEvents);
          match accept {
            case Undecided => return Hung;
            case Declined(_) => return Returned(None, Some(Other("Failed to prompt confirmation")));
            case Answered(yes) =>
              if !yes {
                return Returned(Some(DownloadOption), None);
              }
          }
        }
      }
      r := Returned(None, None);
    }

    // DownloadOption.exec
    method ExecDownload(env: Env) returns (r: Exec)
      ensures r == DownloadExec(settings, supportedDistros, env)
    {
      var entries := ConfigEntries(supportedDistros.names);
      entries := entries + [Config(OTHER_DISTRO)];
      assert entries == ConfigEntries(supportedDistros.names + [OTHER_DISTRO]);
      var picked, _ := PromptMenuEntry(entries, LabelOf, env.distroEvents, []);
      var name;
      match picked {
        case Blocked => return Hung;
        case Refused(error) => return Returned(None, Some(error));
        case Picked(distro) => name := LabelOf(distro);
      }
      var link;
      if name == OTHER_DISTRO {
        var typed := LineEditor.PromptTextInput(settings.validURL, env.urlEvents);
        match typed {
          case Accepted(url, _) => link := url;
          case Stopped(error) => return Returned(None, Some(error));
          case _ => return Hung;
        }
      } else {
        var mirror := AskMirror(name, env.mirrorEvents);
        match mirror {
          case LinkHung => return Hung;
          case NoLink(error) => return Returned(None, Some(error));
          case Link(url) => link := url;
        }
      }
      var filename := Base(link);
      var fpath;
      if settings.cache.dir == "" {
        fpath := Join(settings.tempDir, filename);
      } else {
        var downloadDir := Join(settings.cache.dir, "Downloaded");
        if env.mkdirError != None {
          return Returned(None, Some(Other("Fail to create the downloaded dir :" + env.mkdirError.value)));
        }
        fpath := Join(downloadDir, filename);
      }
      var err := DownloadError(filename, env);
      if err != None {
        return Returned(None, Some(Other(err.value)));
      }
      var menu := DisplayChecksumPrompt(name, env);
      if menu != Returned(None, None) {
        return menu;
      }
      r := Returned(Some(ISO(filename, fpath)), None);
    }

    // ISO.exec
    method ExecIso(path: string, env: Env) returns (r: IsoExec)
      modifies this
      ensures r == IsoExecOf(settings, supportedDistros, env).0
      ensures State() == (if IsoExecOf(settings, supportedDistros, env).1
                          then old(State()).(isoPath := IsoPath(path, settings.cache.mountPoint))
                          else old(State()))
    {
      var distro := NO_DISTRO;
      if env.inferred in supportedDistros.distros {
        distro := supportedDistros.distros[env.inferred];
      } else {
        var typed, _ := PromptMenuEntry(ConfigEntries(supportedDistros.names), LabelOf, env.typeEvents, []);
        match typed {
          case Blocked => return IsoHung;
          case Refused(error) => return IsoReturned(Some(error));
          case Picked(entry) =>
            if LabelOf(entry) in supportedDistros.distros {
              distro := supportedDistros.distros[LabelOf(entry)];
            }
        }
      }
      ghost var own := if distro.bootConfig != "" && env.parsed.Ok? then env.parsed.value else [];
      var configs: seq<string> := [];
      if distro.bootConfig != "" {
        if env.parsed.Err? {
          return IsoReturned(Some(Other(env.parsed.error)));
        }
        configs := configs + env.parsed.value;
      }
      assert configs == own;
      if distro.customConfigs != 0 {
        if env.custom.Err? {
          return IsoReturned(Some(Other(env.custom.error)));
        }
        configs := configs + env.custom.value;
      }
      assert configs == own + if distro.customConfigs != 0 then env.custom.value else [];
      if |configs| == 0 {
        return IsoReturned(Some(Other("No valid configs were found.")));
      }
      var config;
      var picked, _ := PromptMenuEntry(BootConfigs(configs), LabelOf, env.configEvents, []);
      match picked {
        case Blocked => return IsoHung;
        case Refused(error) => return IsoReturned(Some(error));
        case Picked(entry) => config := LabelOf(entry);
      }
      isoPath := IsoPath(path, settings.cache.mountPoint);
      if env.templateError != None {
        return IsoReturned(Some(Other(env.templateError.value)));
      }
      if settings.dryRun {
        return IsoReturned(Some(Other("Booting is disabled (see --dryrun flag)")));
      }
      match env.boot {
        case BootSucceeds => r := IsoBooted(config);
        case BootReturns => r := IsoReturned(Some(Other("kexec failed, but gave no error.")));
        case BootFails(message) => r := IsoReturned(Some(Other(message)));
      }
    }

    // The loop of main, as far as the environments given reach.
    method Loop(envs: seq<Env>)
      modifies this
      ensures State() == RunMain(settings, old(State()), envs)
    {
      var i := 0;
      ghost var start := State();
      while i < |envs| && status == Running
        invariant i <= |envs|
        invariant RunMain(settings, start, envs) == RunMain(settings, State(), envs[i..])
      {
        ghost var before := State();
        Round(envs[i]);
        assert envs[i..][1..] == envs[i + 1..];
        i := i + 1;
      }
    }

    method Round(env: Env)
      modifies this
      ensures State() == MainStep(settings, old(State()), env)
    {
      if entry == None {
        status := Finished;
        return;
      }
      match entry.value {
        case LogOption =>
          if !Pager.Leaves(Keys(env.resultEvents)) {
            status := Waiting;
            return;
          }
          GetMainMenu(env.menuRounds);
        case DownloadOption =>
          supportedDistros := Fetched(env);
          var r := ExecDownload(env);
          if r == Hung {
            status := Waiting;
          } else if r.error == None {
            entry := r.entry;
          } else {
            HandleErrorThenMenu(r.error.value, env);
          }
        case ISO(_, path) =>
          var r := ExecIso(path, env);
          match r {
            case IsoHung => status := Waiting;
            case IsoBooted(image) => status := Booted(image);
            case IsoReturned(None) =>
            case IsoReturned(Some(error)) => HandleErrorThenMenu(error, env);
          }
        case DirOption(_, path) =>
          var r := ExecDir(path, env);
          if r == Hung {
            status := Waiting;
          } else if r.error == None {
            entry := r.entry;
          } else if r.error == Some(BackRequest) && path != settings.cache.dir {
            entry := Some(DirOption("", Dir(path)));
          } else {
            HandleErrorThenMenu(r.error.value, env);
          }
        case _ =>
          HandleErrorThenMenu(Other("Unknown menu type"), env);
      }
    }
  }
}
