/** LoadCustomConfigs (pkg/bootiso/bootiso.go): kernel and initrd files are
    copied to temporary files through one memo table, and whatever was opened on
    the ISO is closed on the way out. */
module CustomConfigs {
  import opened Wrappers

  datatype Config = Config(name: string, kernelPath: string, initrdPath: string, cmdline: string)

  // What comes of reading a path of the ISO: its bytes, or the first call
  // that fails. No path is tried again after it succeeded or failed, so this
  // covers every way the calls may fail.
  datatype Access =
    | OpenFails(message: string) | TempFails(message: string)
    | CopyFails(message: string) | SeekFails(message: string)
    | Readable(data: string)

  type Iso = string -> Access

  // ---- Without a memo table ---------------------------------------------

  datatype PlainImage = PlainImage(name: string, kernel: string, initrd: string, cmdline: string)

  // The paths in the order they are needed.
  function Needed(configs: seq<Config>): seq<string> {
    if configs == [] then []
    else
      var c := configs[|configs| - 1];
      Needed(configs[..|configs| - 1]) + [c.kernelPath, c.initrdPath]
  }

  // The error of the first path that cannot be read.
  function FirstError(iso: Iso, paths: seq<string>): Option<string> {
    if paths == [] then None
    else
      match FirstError(iso, paths[..|paths| - 1])
      case Some(message) => Some(message)
      case None =>
        match iso(paths[|paths| - 1])
        case Readable(_) => None
        case failure => Some(failure.message)
  }

  function DataAt(iso: Iso, path: string): string {
    match iso(path)
    case Readable(data) => data
    case _ => ""
  }

  function PlainImages(iso: Iso, configs: seq<Config>): seq<PlainImage> {
    seq(|configs|, i requires 0 <= i < |configs| =>
      PlainImage(configs[i].name, DataAt(iso, configs[i].kernelPath), DataAt(iso, configs[i].initrdPath),
                 configs[i].cmdline))
  }

  // Read every path each time it is needed.
  function LoadPlain(iso: Iso, configs: seq<Config>): Result<seq<PlainImage>, string> {
    match FirstError(iso, Needed(configs))
    case Some(message) => Err(message)
    case None => Ok(PlainImages(iso, configs))
  }

  // The paths come kernel, initrd, kernel, initrd, config by config.
  lemma {:induction false} NeededAre(configs: seq<Config>)
    ensures |Needed(configs)| == 2 * |configs|
    ensures forall i :: 0 <= i < |configs| ==>
              Needed(configs)[2 * i] == configs[i].kernelPath && Needed(configs)[2 * i + 1] == configs[i].initrdPath
  {
    if configs != [] {
      var n := |configs| - 1;
      NeededAre(configs[..n]);
      forall i | 0 <= i < |configs|
        ensures Needed(configs)[2 * i] == configs[i].kernelPath && Needed(configs)[2 * i + 1] == configs[i].initrdPath
      {
        assert i < n ==> configs[..n][i] == configs[i] && 2 * i + 1 < |Needed(configs[..n])|;
      }
    }
  }

  function Fails(access: Access): Option<string> {
    match access
    case Readable(_) => None
    case failure => Some(failure.message)
  }

  // The j-th path is the first that cannot be read.
  predicate FailsFirst(iso: Iso, paths: seq<string>, j: nat, message: string) {
    && j < |paths| && Fails(iso(paths[j])) == Some(message)
    && forall k :: 0 <= k < j ==> iso(paths[k]).Readable?
  }

  lemma {:induction false} FirstErrorIs(iso: Iso, paths: seq<string>) returns (j: nat)
    ensures FirstError(iso, paths).None? <==> forall k :: 0 <= k < |paths| ==> iso(paths[k]).Readable?
    ensures FirstError(iso, paths).Some? ==> FailsFirst(iso, paths, j, FirstError(iso, paths).value)
  {
    j := 0;
    if paths != [] {
      var n := |paths| - 1;
      assert forall k :: 0 <= k < n ==> paths[..n][k] == paths[k];
      j := FirstErrorIs(iso, paths[..n]);
      if FirstError(iso, paths[..n]).None? {
        forall k | 0 <= k < n
          ensures iso(paths[k]).Readable?
        {
          assert iso(paths[..n][k]).Readable?;
        }
        j := n;
      } else {
        assert iso(paths[..n][j]) == iso(paths[j]) && !iso(paths[j]).Readable?;
        forall k | 0 <= k < j
          ensures iso(paths[k]).Readable?
        {
          assert iso(paths[..n][k]).Readable?;
        }
      }
    }
  }

  predicate AllReadable(iso: Iso, configs: seq<Config>) {
    forall i :: 0 <= i < |configs| ==>
      iso(configs[i].kernelPath).Readable? && iso(configs[i].initrdPath).Readable?
  }

  lemma AllReadableIff(iso: Iso, configs: seq<Config>)
    ensures FirstError(iso, Needed(configs)).None? <==> AllReadable(iso, configs)
  {
    hide Needed, FirstError;
    var needed := Needed(configs);
    NeededAre(configs);
    var _ := FirstErrorIs(iso, needed);
    if AllReadable(iso, configs) {
      forall j | 0 <= j < |needed|
        ensures iso(needed[j]).Readable?
      {
        var i := j / 2;
        assert needed[2 * i] == configs[i].kernelPath && needed[2 * i + 1] == configs[i].initrdPath;
        assert j == 2 * i || j == 2 * i + 1;
      }
    }
    if FirstError(iso, needed).None? {
      forall i | 0 <= i < |configs|
        ensures iso(configs[i].kernelPath).Readable? && iso(configs[i].initrdPath).Readable?
      {
        assert iso(needed[2 * i]).Readable? && iso(needed[2 * i + 1]).Readable?;
      }
    }
  }

  // An image is that of a config: its label, its command line and the bytes of
  // its two paths.
  predicate ImageOf(iso: Iso, c: Config, image: PlainImage) {
    && image.name == c.name && image.cmdline == c.cmdline
    && iso(c.kernelPath) == Readable(image.kernel)
    && iso(c.initrdPath) == Readable(image.initrd)
  }

  predicate ImagesOf(iso: Iso, configs: seq<Config>, images: seq<PlainImage>) {
    |images| == |configs| && forall i :: 0 <= i < |images| ==> ImageOf(iso, configs[i], images[i])
  }

  // Loading without a table, exactly: the images are those of the configs, in
  // order.
  lemma LoadPlainIff(iso: Iso, configs: seq<Config>, images: seq<PlainImage>)
    ensures LoadPlain(iso, configs) == Ok(images) <==> ImagesOf(iso, configs, images)
  {
    hide Needed, FirstError;
    AllReadableIff(iso, configs);
    if AllReadable(iso, configs) {
      PlainImagesAre(iso, configs, images);
    } else if ImagesOf(iso, configs, images) {
      forall i | 0 <= i < |configs|
        ensures iso(configs[i].kernelPath).Readable? && iso(configs[i].initrdPath).Readable?
      {
        assert ImageOf(iso, configs[i], images[i]);
      }
    }
  }

  // It fails with the message of the first path that cannot be read.
  lemma LoadPlainFails(iso: Iso, configs: seq<Config>, message: string)
    ensures LoadPlain(iso, configs) == Err(message) <==> exists j: nat :: FailsFirst(iso, Needed(configs), j, message)
  {
    hide Needed, FirstError, FailsFirst;
    var paths := Needed(configs);
    var i := FirstErrorIs(iso, paths);
    match FirstError(iso, paths)
    case Some(m) =>
      assert LoadPlain(iso, configs) == Err(m) && FailsFirst(iso, paths, i, m);
      forall j: nat | FailsFirst(iso, paths, j, message)
        ensures m == message
      {
        OnlyFirst(iso, paths, i, m, j, message);
      }
      if m == message {
        assert FailsFirst(iso, Needed(configs), i, message);
      }
    case None =>
      assert LoadPlain(iso, configs).Ok?;
      forall j: nat | FailsFirst(iso, paths, j, message)
        ensures false
      {
        NothingFails(iso, paths, j, message);
      }
  }

  lemma NothingFails(iso: Iso, paths: seq<string>, j: nat, message: string)
    requires FailsFirst(iso, paths, j, message)
    ensures exists k :: 0 <= k < |paths| && !iso(paths[k]).Readable?
  {
    assert !iso(paths[j]).Readable?;
  }

  lemma OnlyFirst(iso: Iso, paths: seq<string>, i: nat, m: string, j: nat, n: string)
    requires FailsFirst(iso, paths, i, m) && FailsFirst(iso, paths, j, n)
    ensures i == j && m == n
  {
    assert !iso(paths[i]).Readable? && !iso(paths[j]).Readable?;
  }

  lemma PlainImagesAre(iso: Iso, configs: seq<Config>, images: seq<PlainImage>)
    requires AllReadable(iso, configs)
    ensures PlainImages(iso, configs) == images <==> ImagesOf(iso, configs, images)
  {
  }

  // Each path where it occurs first.
  function FirstOccurrences(paths: seq<string>): seq<string> {
    if paths == [] then []
    else
      var before, last := paths[..|paths| - 1], paths[|paths| - 1];
      FirstOccurrences(before) + if last in before then [] else [last]
  }

  lemma FirstErrorSnoc(iso: Iso, paths: seq<string>, path: string)
    ensures FirstError(iso, paths + [path])
         == match FirstError(iso, paths)
            case Some(message) => Some(message)
            case None => match iso(path) case Readable(_) => None case failure => Some(failure.message)
  {
    assert (paths + [path])[..|paths|] == paths;
  }

  lemma {:induction false} FirstErrorPrefix(iso: Iso, a: seq<string>, b: seq<string>)
    requires FirstError(iso, a).Some?
    ensures FirstError(iso, a + b) == FirstError(iso, a)
  {
    if b == [] {
      assert a + b == a;
    } else {
      assert (a + b)[..|a + b| - 1] == a + b[..|b| - 1];
      FirstErrorPrefix(iso, a, b[..|b| - 1]);
    }
  }

  lemma {:induction false} NeededPrefix(configs: seq<Config>, i: nat)
    requires i <= |configs|
    ensures exists rest :: Needed(configs) == Needed(configs[..i]) + rest
  {
    if i == |configs| {
      assert configs[..i] == configs;
      assert Needed(configs) == Needed(configs[..i]) + [];
    } else {
      var last := |configs| - 1;
      NeededPrefix(configs[..last], i);
      assert configs[..last][..i] == configs[..i];
      var rest :| Needed(configs[..last]) == Needed(configs[..i]) + rest;
      assert Needed(configs) == Needed(configs[..i]) + (rest + [configs[last].kernelPath, configs[last].initrdPath]);
    }
  }

  lemma NeededNext(configs: seq<Config>, i: nat)
    requires i < |configs|
    ensures Needed(configs[..i + 1]) == Needed(configs[..i]) + [configs[i].kernelPath] + [configs[i].initrdPath]
  {
    assert configs[..i + 1][..i] == configs[..i];
  }

  // The paths of config i among all.
  lemma NeededSplit(configs: seq<Config>, i: nat) returns (rest: seq<string>)
    requires i < |configs|
    ensures Needed(configs[..i + 1]) == Needed(configs[..i]) + [configs[i].kernelPath] + [configs[i].initrdPath]
    ensures Needed(configs) == Needed(configs[..i + 1]) + rest
    ensures Needed(configs) == Needed(configs[..i]) + [configs[i].kernelPath] + ([configs[i].initrdPath] + rest)
  {
    NeededNext(configs, i);
    NeededPrefix(configs, i + 1);
    rest :| Needed(configs) == Needed(configs[..i + 1]) + rest;
  }

  // What is seen of a prefix of the paths holds of all of them.
  lemma PrefixIsEnough(iso: Iso, a: seq<string>, b: seq<string>)
    ensures FirstError(iso, a).Some? ==> FirstError(iso, a + b) == FirstError(iso, a)
    ensures FirstOccurrences(a) <= FirstOccurrences(a + b)
  {
    if FirstError(iso, a).Some? {
      FirstErrorPrefix(iso, a, b);
    }
    FirstOccurrencesPrefix(a, b);
  }

  lemma {:induction false} FirstOccurrencesPrefix(a: seq<string>, b: seq<string>)
    ensures FirstOccurrences(a) <= FirstOccurrences(a + b)
  {
    if b == [] {
      assert a + b == a;
    } else {
      assert (a + b)[..|a + b| - 1] == a + b[..|b| - 1];
      FirstOccurrencesPrefix(a, b[..|b| - 1]);
    }
  }

  lemma {:induction false} FirstOccurrencesAre(paths: seq<string>)
    ensures forall p :: p in FirstOccurrences(paths) <==> p in paths
    ensures forall i, j :: 0 <= i < j < |FirstOccurrences(paths)| ==>
              FirstOccurrences(paths)[i] != FirstOccurrences(paths)[j]
  {
    if paths != [] {
      FirstOccurrencesAre(paths[..|paths| - 1]);
      assert paths == paths[..|paths| - 1] + [paths[|paths| - 1]];
    }
  }

  // ---- The files --------------------------------------------------------

  class IsoFile {
    const path: string
    var closes: nat

    constructor (path: string)
      ensures this.path == path && closes == 0
    {
      this.path := path;
      closes := 0;
    }

    method Close()
      modifies this
      ensures closes == old(closes) + 1
    {
      closes := closes + 1;
    }
  }

  class TempFile {
    var data: string
    var offset: nat

    constructor ()
      ensures data == "" && offset == 0
    {
      data := "";
      offset := 0;
    }

    // io.Copy leaves the offset behind what was written.
    method Fill(contents: string)
      modifies this
      ensures data == old(data) + contents && offset == |data|
    {
      data := data + contents;
      offset := |data|;
    }

    method Rewind()
      modifies this`offset
      ensures offset == 0
    {
      offset := 0;
    }
  }

  // The ISO, whether it is mounted, and everything opened on it.
  class Mount {
    const iso: Iso
    var everOpened: seq<IsoFile>
    var mounted: bool

    constructor (iso: Iso)
      ensures this.iso == iso && everOpened == [] && !mounted
    {
      this.iso := iso;
      everOpened := [];
      mounted := false;
    }

    method Open(path: string) returns (file: Option<IsoFile>)
      modifies this`everOpened
      ensures file.None? <==> iso(path).OpenFails?
      ensures file.None? ==> everOpened == old(everOpened)
      ensures file.Some? ==>
        && fresh(file.value) && file.value.path == path && file.value.closes == 0
        && everOpened == old(everOpened) + [file.value]
    {
      if iso(path).OpenFails? {
        return None;
      }
      var f := new IsoFile(path);
      everOpened := everOpened + [f];
      file := Some(f);
    }
  }

  datatype LinuxImage = LinuxImage(name: string, kernel: TempFile, initrd: TempFile, cmdline: string)

  function PathsOf(files: seq<IsoFile>): (paths: seq<string>)
    ensures |paths| == |files|
  {
    seq(|files|, i requires 0 <= i < |files| => files[i].path)
  }

  // A temporary file that gives the bytes of a path when read from where it is.
  predicate Holds(iso: Iso, path: string, file: TempFile)
    reads file
  {
    iso(path) == Readable(file.data) && file.offset == 0
  }

  // Distinct files, none closed.
  predicate AllOpen(files: seq<IsoFile>)
    reads files
  {
    && (forall i :: 0 <= i < |files| ==> files[i].closes == 0)
    && (forall i, j :: 0 <= i < j < |files| ==> files[i] != files[j])
  }

  // The state after the paths so far: each is in the table, copied once.
  ghost predicate Table(mount: Mount, files: seq<IsoFile>, copied: map<string, TempFile>, paths: seq<string>)
    reads mount, files, copied.Values
  {
    && files == mount.everOpened && AllOpen(files)
    && PathsOf(files) == FirstOccurrences(paths)
    && FirstError(mount.iso, paths).None?
    && (forall p :: p in copied <==> p in paths)
    && (forall p :: p in copied ==> Holds(mount.iso, p, copied[p]))
  }

  // Open a path and copy it to a new temporary file. After an error the file
  // may be open.
  method CopyOut(mount: Mount, path: string) returns (file: Option<IsoFile>, r: Result<TempFile, string>)
    modifies mount`everOpened
    ensures file.None? ==> r.Err? && mount.everOpened == old(mount.everOpened)
    ensures file.Some? ==> fresh(file.value) && file.value.path == path && file.value.closes == 0
    ensures file.Some? ==> mount.everOpened == old(mount.everOpened) + [file.value]
    ensures r.Ok? ==> fresh(r.value) && Holds(mount.iso, path, r.value)
    ensures r.Err? ==> !mount.iso(path).Readable? && r.error == mount.iso(path).message
  {
    file := mount.Open(path);
    if file == None {
      return file, Err(mount.iso(path).message);
    }
    if mount.iso(path).TempFails? {
      return file, Err(mount.iso(path).message);
    }
    var tmp := new TempFile();
    if mount.iso(path).CopyFails? {
      return file, Err(mount.iso(path).message);
    }
    tmp.Fill(DataAt(mount.iso, path));
    if mount.iso(path).SeekFails? {
      return file, Err(mount.iso(path).message);
    }
    tmp.Rewind();
    assert tmp.data == DataAt(mount.iso, path);
    r := Ok(tmp);
  }

  lemma PathsOfSnoc(files: seq<IsoFile>, file: IsoFile)
    ensures PathsOf(files + [file]) == PathsOf(files) + [file.path]
  {
  }

  lemma FirstOccurrencesSnoc(paths: seq<string>, path: string)
    ensures FirstOccurrences(paths + [path]) == FirstOccurrences(paths) + (if path in paths then [] else [path])
  {
    assert (paths + [path])[..|paths|] == paths;
  }

  // Copy a path to a temporary file if we have not already. After an error
  // the file may be open, but no path was opened twice.
  method Fetch(mount: Mount, files: seq<IsoFile>, copied: map<string, TempFile>, ghost paths: seq<string>, path: string)
      returns (files': seq<IsoFile>, copied': map<string, TempFile>, r: Result<TempFile, string>)
    requires Table(mount, files, copied, paths)
    modifies mount`everOpened
    ensures forall f :: f in files' && f !in files ==> fresh(f)
    ensures forall p :: p in copied' && p !in copied ==> fresh(copied'[p])
    ensures forall p :: p in copied ==> p in copied' && copied'[p] == copied[p]
    ensures r.Ok? ==> Table(mount, files', copied', paths + [path]) && copied'[path] == r.value
    ensures r.Err? ==>
      && FirstError(mount.iso, paths + [path]) == Some(r.error)
      && files' == mount.everOpened && AllOpen(files')
      && PathsOf(files') <= FirstOccurrences(paths + [path])
  {
    hide FirstError, FirstOccurrences, PathsOf;
    files', copied' := files, copied;
    FirstErrorSnoc(mount.iso, paths, path);
    FirstOccurrencesSnoc(paths, path);
    if path in copied {
      r := Ok(copied[path]);
      return;
    }
    var file;
    file, r := CopyOut(mount, path);
    if file != None {
      PathsOfSnoc(files, file.value);
      files' := files + [file.value];
    }
    if r.Ok? {
      copied' := copied[path := r.value];
    }
  }

  predicate FromTable(image: LinuxImage, copied: map<string, TempFile>, c: Config) {
    && c.kernelPath in copied && c.initrdPath in copied
    && image == LinuxImage(c.name, copied[c.kernelPath], copied[c.initrdPath], c.cmdline)
  }

  // The images of the first configs.
  predicate AllFromTable(images: seq<LinuxImage>, copied: map<string, TempFile>, configs: seq<Config>) {
    |images| <= |configs| && forall i :: 0 <= i < |images| ==> FromTable(images[i], copied, configs[i])
  }

  lemma OneMoreImage(images: seq<LinuxImage>, before: map<string, TempFile>, copied: map<string, TempFile>,
                     configs: seq<Config>, image: LinuxImage)
    requires AllFromTable(images, before, configs) && |images| < |configs|
    requires forall p :: p in before ==> p in copied && copied[p] == before[p]
    requires FromTable(image, copied, configs[|images|])
    ensures AllFromTable(images + [image], copied, configs)
  {
    forall i | 0 <= i < |images|
      ensures FromTable(images[i], copied, configs[i])
    {
      assert FromTable(images[i], before, configs[i]);
    }
  }

  // The last of paths could not be read, and nothing was opened twice.
  predicate StoppedAt(iso: Iso, paths: seq<string>, files: seq<IsoFile>, message: string) {
    FirstError(iso, paths) == Some(message) && PathsOf(files) <= FirstOccurrences(paths)
  }

  // What stopped the loop is the first error of all that is needed.
  lemma StoppedInside(iso: Iso, paths: seq<string>, more: seq<string>, files: seq<IsoFile>, message: string)
    requires StoppedAt(iso, paths, files, message)
    ensures StoppedAt(iso, paths + more, files, message)
  {
    PrefixIsEnough(iso, paths, more);
    var a, b, c := PathsOf(files), FirstOccurrences(paths), FirstOccurrences(paths + more);
    assert a <= b && b <= c;
  }

  // One round of the loop: kernel, initrd, image.
  method LoadImage(mount: Mount, files: seq<IsoFile>, copied: map<string, TempFile>, ghost paths: seq<string>,
                   c: Config)
      returns (files': seq<IsoFile>, copied': map<string, TempFile>, r: Result<LinuxImage, string>)
    requires Table(mount, files, copied, paths)
    modifies mount`everOpened
    ensures forall f :: f in files' && f !in files ==> fresh(f)
    ensures forall p :: p in copied' && p !in copied ==> fresh(copied'[p])
    ensures forall p :: p in copied ==> p in copied' && copied'[p] == copied[p]
    ensures r.Ok? ==> Table(mount, files', copied', paths + [c.kernelPath] + [c.initrdPath])
    ensures r.Ok? ==> FromTable(r.value, copied', c)
    ensures r.Err? ==> files' == mount.everOpened && AllOpen(files')
    ensures r.Err? ==>
      || StoppedAt(mount.iso, paths + [c.kernelPath], files', r.error)
      || StoppedAt(mount.iso, paths + [c.kernelPath] + [c.initrdPath], files', r.error)
  {
    var tmpKernel, tmpInitrd;
    files', copied', tmpKernel := Fetch(mount, files, copied, paths, c.kernelPath);
    if tmpKernel.Err? {
      return files', copied', Err(tmpKernel.error);
    }
    files', copied', tmpInitrd := Fetch(mount, files', copied', paths + [c.kernelPath], c.initrdPath);
    if tmpInitrd.Err? {
      return files', copied', Err(tmpInitrd.error);
    }
    r := Ok(LinuxImage(c.name, tmpKernel.value, tmpInitrd.value, c.cmdline));
  }

  // The loop over the configs, without the cleanup.
  method Load(mount: Mount, configs: seq<Config>)
      returns (files: seq<IsoFile>, copied: map<string, TempFile>, r: Result<seq<LinuxImage>, string>)
    requires mount.everOpened == []
    modifies mount`everOpened
    ensures forall f :: f in files ==> fresh(f)
    ensures r.Err? ==> files == mount.everOpened && AllOpen(files)
    ensures r.Err? ==> StoppedAt(mount.iso, Needed(configs), files, r.error)
    ensures r.Ok? ==> Table(mount, files, copied, Needed(configs))
    ensures r.Ok? ==> |r.value| == |configs| && AllFromTable(r.value, copied, configs)
  {
    var images: seq<LinuxImage> := [];
    copied := map[];
    files := [];
    ghost var paths := [];
    assert Table(mount, files, copied, paths);
    for i := 0 to |configs|
      invariant paths == Needed(configs[..i])
      invariant Table(mount, files, copied, paths)
      invariant forall f :: f in files ==> fresh(f)
      invariant |images| == i && AllFromTable(images, copied, configs)
    {
      var image;
      ghost var before := copied;
      files, copied, image := LoadImage(mount, files, copied, paths, configs[i]);
      NeededNext(configs, i);
      paths := Needed(configs[..i + 1]);
      if image.Err? {
        StoppedInConfig(mount.iso, configs, i, files, image.error);
        return files, copied, Err(image.error);
      }
      OneMoreImage(images, before, copied, configs, image.value);
      images := images + [image.value];
    }
    assert configs[..|configs|] == configs;
    r := Ok(images);
  }

  lemma StoppedInConfig(iso: Iso, configs: seq<Config>, i: nat, files: seq<IsoFile>, message: string)
    requires i < |configs|
    requires var paths, c := Needed(configs[..i]), configs[i];
      || StoppedAt(iso, paths + [c.kernelPath], files, message)
      || StoppedAt(iso, paths + [c.kernelPath] + [c.initrdPath], files, message)
    ensures StoppedAt(iso, Needed(configs), files, message)
  {
    var paths, c := Needed(configs[..i]), configs[i];
    var rest := NeededSplit(configs, i);
    if StoppedAt(iso, paths + [c.kernelPath], files, message) {
      StoppedInside(iso, paths + [c.kernelPath], [c.initrdPath] + rest, files, message);
    } else {
      StoppedInside(iso, paths + [c.kernelPath] + [c.initrdPath], rest, files, message);
    }
  }

  // What the images hold.
  function Plain(images: seq<LinuxImage>): seq<PlainImage>
    reads set i | 0 <= i < |images| :: images[i].kernel
    reads set i | 0 <= i < |images| :: images[i].initrd
  {
    seq(|images|, i requires 0 <= i < |images|
                    reads set j | 0 <= j < |images| :: images[j].kernel
                    reads set j | 0 <= j < |images| :: images[j].initrd
                  => PlainImage(images[i].name, images[i].kernel.data, images[i].initrd.data, images[i].cmdline))
  }

  // The deferred cleanup of the files.
  method CloseAll(files: seq<IsoFile>)
    requires AllOpen(files)
    modifies set f | f in files
    ensures forall i :: 0 <= i < |files| ==> files[i].closes == 1
  {
    for i := 0 to |files|
      invariant forall j :: 0 <= j < i ==> files[j].closes == 1
      invariant forall j :: i <= j < |files| ==> files[j].closes == 0
    {
      files[i].Close();
    }
  }

  // The first call of the deferred cleanup that fails, which ends the program.
  datatype Cleanup = AllDone | UnmountFails | RemoveFails

  datatype Loaded = Images(images: seq<LinuxImage>) | LoadError(message: string) | Fatal

  // setup is the error of TempDir, of the loop device or of its mount, if one
  // of them fails; then nothing is opened. Otherwise the result is that of
  // reading every path each time it is needed, with images that can be read
  // from their start, unless the cleanup ends the program; each path was opened
  // at most once, in order of need, on success each exactly once; and on every
  // way out everything opened is closed once and the ISO unmounted, if it can
  // be.
  method LoadCustomConfigs(setup: Option<string>, mount: Mount, configs: seq<Config>, cleanup: Cleanup)
      returns (r: Loaded)
    requires mount.everOpened == [] && !mount.mounted
    modifies mount
    ensures setup.Some? ==> r == LoadError(setup.value) && mount.everOpened == []
    ensures setup.None? ==> (r.Fatal? <==> cleanup != AllDone)
    ensures setup.None? && r.LoadError? ==> LoadPlain(mount.iso, configs) == Err(r.message)
    ensures setup.None? && r.Images? ==> LoadPlain(mount.iso, configs) == Ok(Plain(r.images))
    ensures r.Images? ==>
      forall i :: 0 <= i < |r.images| ==> r.images[i].kernel.offset == 0 && r.images[i].initrd.offset == 0
    ensures PathsOf(mount.everOpened) <= FirstOccurrences(Needed(configs))
    ensures r.Images? ==> PathsOf(mount.everOpened) == FirstOccurrences(Needed(configs))
    ensures forall i :: 0 <= i < |mount.everOpened| ==> mount.everOpened[i].closes == 1
    ensures mount.mounted <==> setup.None? && cleanup.UnmountFails?
  {
    if setup != None {
      return LoadError(setup.value);
    }
    mount.mounted := true;
    var files, copied, loaded;
    files, copied, loaded := Load(mount, configs);
    CloseAll(files);
    if cleanup.UnmountFails? {
      return Fatal;
    }
    mount.mounted := false;
    if cleanup.RemoveFails? {
      return Fatal;
    }
    match loaded {
      case Err(message) => r := LoadError(message);
      case Ok(images) =>
        r := Images(images);
        forall i | 0 <= i < |configs|
          ensures PlainImages(mount.iso, configs)[i] == Plain(images)[i]
        {
          assert FromTable(images[i], copied, configs[i]);
        }
        assert PlainImages(mount.iso, configs) == Plain(images);
    }
  }
}
