/** `update`: read the module file of every listed distribution, resolve each
    into its link list on its FTP server, and hand the lists with their
    category directories to `download`. The module files are given as their
    lines, keyed by distribution name; the servers as their directory trees. */
module Manager {
  import opened Wrappers
  import opened PyStr
  import opened Ftp
  import opened Resolver
  import opened Config
  import opened Downloader

  // ---------------------------------------------------------------------------
  // Descriptors
  // ---------------------------------------------------------------------------

  /** `temp` after the first loop for one distribution: its name followed by
      the values of its module file (category, server, directory, option). A
      missing module file makes `open` raise. */
  function Descriptor(confs: map<string, seq<string>>, name: string): Result<seq<string>>
  {
    if name !in confs then Fail(MissingConf(name))
    else
      var values :- ConfigValues(confs[name]);
      Ok([name] + values)
  }

  /** A descriptor exists exactly when the module file exists and each of its
      lines has a "= "; it is the name, then each line's value in order. */
  lemma DescriptorMeaning(confs: map<string, seq<string>>, name: string)
    ensures Descriptor(confs, name).Ok? <==>
              name in confs && forall i :: 0 <= i < |confs[name]| ==> ConfigValue(confs[name][i]).Ok?
    ensures Descriptor(confs, name).Ok? ==>
              |Descriptor(confs, name).value| == |confs[name]| + 1 && Descriptor(confs, name).value[0] == name
    ensures Descriptor(confs, name).Ok? ==>
              forall i :: 0 <= i < |confs[name]| ==>
                Descriptor(confs, name).value[i + 1] == ConfigValue(confs[name][i]).value
    ensures name !in confs ==> Descriptor(confs, name) == Fail(MissingConf(name))
    ensures name in confs && Descriptor(confs, name).Fail? ==> Descriptor(confs, name).error == IndexError
  {
    if name in confs {
      var values := ConfigValues(confs[name]);
      ConfigValuesMeaning(confs[name]);
      if values.Ok? {
        var d := [name] + values.value;
        assert Descriptor(confs, name) == Ok(d);
        assert forall i :: 0 <= i < |values.value| ==> d[i + 1] == values.value[i];
      } else {
        assert Descriptor(confs, name) == Fail(values.error);
      }
    }
  }

  function DescriptorOf(confs: map<string, seq<string>>): string -> Result<seq<string>>
  {
    name => Descriptor(confs, name)
  }

  /** The descriptors of all distributions, or the first failure. */
  function Descriptors(confs: map<string, seq<string>>, osList: seq<string>): Result<seq<seq<string>>>
  {
    MapResult(osList, DescriptorOf(confs))
  }

  /** The first loop of `update`. */
  method ReadDescriptors(confs: map<string, seq<string>>, osList: seq<string>)
    returns (r: Result<seq<seq<string>>>)
    ensures r == Descriptors(confs, osList)
  {
    var objects: seq<seq<string>> := [];
    for i := 0 to |osList|
      invariant MapResult(osList[..i], DescriptorOf(confs)) == Ok(objects)
    {
      MapResultStep(osList, i, DescriptorOf(confs));
      var name := osList[i];
      if name !in confs {
        MapResultSticks(osList, i + 1, DescriptorOf(confs));
        return Fail(MissingConf(name));
      }
      var temp := ConvertLines(confs[name]);
      if temp.Fail? {
        MapResultSticks(osList, i + 1, DescriptorOf(confs));
        return Fail(temp.error);
      }
      objects := objects + [[name] + temp.value];
    }
    assert osList[..|osList|] == osList;
    r := Ok(objects);
  }

  // ---------------------------------------------------------------------------
  // Resolution
  // ---------------------------------------------------------------------------

  /** The second loop on one descriptor: `ftp_traverse(d[0], d[2], d[3], d[4])`,
      then its category `d[1]`, which exists once `d[4]` does. */
  function Resolve(servers: map<string, Tree>, d: seq<string>): Result<(seq<string>, string)>
  {
    var name :- PyIndex(d, 0);
    var server :- PyIndex(d, 2);
    var cwd :- PyIndex(d, 3);
    var options :- PyIndex(d, 4);
    var links :- Traverse(servers, name, server, cwd, options);
    Ok((links, d[1]))
  }

  /** A descriptor with fewer than four values makes an argument lookup raise
      before anything is fetched; otherwise the links are those of
      `ftp_traverse` and the category is the first value. */
  lemma ResolveMeaning(servers: map<string, Tree>, d: seq<string>)
    ensures |d| < 5 ==> Resolve(servers, d) == Fail(IndexError)
    ensures |d| >= 5 ==>
              Resolve(servers, d) ==
                match Traverse(servers, d[0], d[2], d[3], d[4])
                case Fail(e) => Fail(e)
                case Ok(links) => Ok((links, d[1]))
  {
  }

  /** `Resolve` against live sessions. */
  method ResolveDescriptor(servers: map<string, Tree>, d: seq<string>)
    returns (r: Result<(seq<string>, string)>)
    ensures r == Resolve(servers, d)
  {
    var name :- PyIndex(d, 0);
    var server :- PyIndex(d, 2);
    var cwd :- PyIndex(d, 3);
    var options :- PyIndex(d, 4);
    var links :- FtpTraverse(servers, name, server, cwd, options);
    r := Ok((links, d[1]));
  }

  function ResolveOf(servers: map<string, Tree>): seq<string> -> Result<(seq<string>, string)>
  {
    d => Resolve(servers, d)
  }

  /** The link lists and categories of all descriptors, or the first failure. */
  function ResolveAll(servers: map<string, Tree>, ds: seq<seq<string>>): Result<seq<(seq<string>, string)>>
  {
    MapResult(ds, ResolveOf(servers))
  }

  /** The second loop of `update`: each descriptor is looked up again at
      `os_objects.index(object)`, which holds an equal descriptor. */
  method ResolveDescriptors(servers: map<string, Tree>, objects: seq<seq<string>>)
    returns (r: Result<seq<(seq<string>, string)>>)
    ensures r == ResolveAll(servers, objects)
  {
    var resolved: seq<(seq<string>, string)> := [];
    for i := 0 to |objects|
      invariant MapResult(objects[..i], ResolveOf(servers)) == Ok(resolved)
    {
      MapResultStep(objects, i, ResolveOf(servers));
      var objectIndex := FirstIndex(objects, objects[i]);
      var one := ResolveDescriptor(servers, objects[objectIndex]);
      if one.Fail? {
        MapResultSticks(objects, i + 1, ResolveOf(servers));
        return Fail(one.error);
      }
      resolved := resolved + [one.value];
    }
    assert objects[..|objects|] == objects;
    r := Ok(resolved);
  }

  // ---------------------------------------------------------------------------
  // The whole run
  // ---------------------------------------------------------------------------

  /** The link lists handed to `download`. */
  function Files(resolved: seq<(seq<string>, string)>): (r: seq<seq<string>>)
    ensures |r| == |resolved| && forall i :: 0 <= i < |r| ==> r[i] == resolved[i].0
  {
    if |resolved| == 0 then [] else Files(resolved[..|resolved| - 1]) + [resolved[|resolved| - 1].0]
  }

  /** The destination directories handed to `download`, one per category. */
  function DownloadPaths(downloadPath: string, resolved: seq<(seq<string>, string)>): (r: seq<string>)
    ensures |r| == |resolved|
    ensures forall i :: 0 <= i < |r| ==> r[i] == DestinationDir(downloadPath, resolved[i].1)
  {
    if |resolved| == 0 then []
    else DownloadPaths(downloadPath, resolved[..|resolved| - 1]) +
         [DestinationDir(downloadPath, resolved[|resolved| - 1].1)]
  }

  /** The link lists and the categories the second loop of `update` collects,
      in the order of the distributions. */
  method SplitResolved(resolved: seq<(seq<string>, string)>)
    returns (files: seq<seq<string>>, categories: seq<string>)
    ensures files == Files(resolved)
    ensures |categories| == |resolved| && forall j :: 0 <= j < |resolved| ==> categories[j] == resolved[j].1
  {
    files := [];
    categories := [];
    for i := 0 to |resolved|
      invariant files == Files(resolved[..i])
      invariant |categories| == i && forall j :: 0 <= j < i ==> categories[j] == resolved[j].1
    {
      assert resolved[..i + 1][..i] == resolved[..i];
      files := files + [resolved[i].0];
      categories := categories + [resolved[i].1];
    }
    assert resolved[..|resolved|] == resolved;
  }

  /** The third loop of `update`: one directory below the download path per
      category. */
  method CategoryPaths(downloadPath: string, categories: seq<string>) returns (paths: seq<string>)
    ensures |paths| == |categories|
    ensures forall j :: 0 <= j < |categories| ==> paths[j] == DestinationDir(downloadPath, categories[j])
  {
    paths := [];
    for i := 0 to |categories|
      invariant |paths| == i
      invariant forall j :: 0 <= j < i ==> paths[j] == DestinationDir(downloadPath, categories[j])
    {
      paths := paths + [DestinationDir(downloadPath, categories[i])];
    }
  }

  /** `update(os_list)`: the tasks submitted and the exception that ended the
      run, if any. */
  function UpdateRun(confs: map<string, seq<string>>, servers: map<string, Tree>, settings: Settings,
                     osList: seq<string>): (seq<Task>, Option<Error>)
  {
    match Descriptors(confs, osList)
    case Fail(e) => ([], Some(e))
    case Ok(ds) =>
      match ResolveAll(servers, ds)
      case Fail(e) => ([], Some(e))
      case Ok(resolved) =>
        Plan(Files(resolved), DownloadPaths(settings.downloadPath, resolved), settings.maxDownloads)
  }

  /** The loops of `update`, then `download`. */
  method Update(confs: map<string, seq<string>>, servers: map<string, Tree>, settings: Settings,
                osList: seq<string>) returns (tasks: seq<Task>, err: Option<Error>)
    ensures (tasks, err) == UpdateRun(confs, servers, settings, osList)
  {
    var objects := ReadDescriptors(confs, osList);
    if objects.Fail? {
      return [], Some(objects.error);
    }
    var resolved := ResolveDescriptors(servers, objects.value);
    if resolved.Fail? {
      return [], Some(resolved.error);
    }
    var files, categories := SplitResolved(resolved.value);
    var downloadPaths := CategoryPaths(settings.downloadPath, categories);
    assert downloadPaths == DownloadPaths(settings.downloadPath, resolved.value);
    tasks, err := Download(files, downloadPaths, settings.maxDownloads);
  }

  // ---------------------------------------------------------------------------
  // Properties of a run
  // ---------------------------------------------------------------------------

  /** A missing module file, or one with a line without "= ", ends the run
      with its exception before a single task is submitted: nothing is
      skipped. */
  lemma FailureBeforeDownload(confs: map<string, seq<string>>, servers: map<string, Tree>,
                              settings: Settings, osList: seq<string>, i: nat)
    requires i < |osList|
    requires Descriptor(confs, osList[i]).Fail?
    requires forall j :: 0 <= j < i ==> Descriptor(confs, osList[j]).Ok?
    ensures UpdateRun(confs, servers, settings, osList) == ([], Some(Descriptor(confs, osList[i]).error))
  {
    MapResultStep(osList, i, DescriptorOf(confs));
    assert MapResult(osList[..i], DescriptorOf(confs)).Ok? by {
      MapResultMeaning(osList[..i], DescriptorOf(confs));
    }
    MapResultSticks(osList, i + 1, DescriptorOf(confs));
  }

  /** A distribution that cannot be resolved (a short descriptor, a host that
      does not answer, a missing directory, no matching image) ends the run
      with its exception before a single task is submitted, whatever the
      distributions after it. */
  lemma ResolutionFailureBeforeDownload(confs: map<string, seq<string>>, servers: map<string, Tree>,
                                        settings: Settings, osList: seq<string>,
                                        ds: seq<seq<string>>, i: nat)
    requires Descriptors(confs, osList) == Ok(ds)
    requires i < |ds| && Resolve(servers, ds[i]).Fail?
    requires forall j :: 0 <= j < i ==> Resolve(servers, ds[j]).Ok?
    ensures UpdateRun(confs, servers, settings, osList) == ([], Some(Resolve(servers, ds[i]).error))
  {
    MapResultStep(ds, i, ResolveOf(servers));
    assert MapResult(ds[..i], ResolveOf(servers)).Ok? by {
      MapResultMeaning(ds[..i], ResolveOf(servers));
    }
    MapResultSticks(ds, i + 1, ResolveOf(servers));
  }

  /** When every distribution resolves (`UpdateRun` then plans the downloads
      of `resolved`), the `i`-th task, if submitted, downloads the first link
      of the `i`-th distribution's list into the directory of its category,
      unless an equal list came earlier. */
  lemma TasksFollowDistributions(resolved: seq<(seq<string>, string)>, downloadPath: string,
                                 maxWorkers: int, i: nat)
    requires i < |Plan(Files(resolved), DownloadPaths(downloadPath, resolved), maxWorkers).0|
    ensures var files := Files(resolved);
            var t := Plan(files, DownloadPaths(downloadPath, resolved), maxWorkers).0[i];
            i < |resolved| && |resolved[i].0| > 0 && t.url == resolved[i].0[0] &&
            t.destDir == DestinationDir(downloadPath, resolved[FirstIndex(files, files[i])].1)
  {
    var files := Files(resolved);
    var paths := DownloadPaths(downloadPath, resolved);
    PlanMeaning(files, paths, maxWorkers);
    TaskAtMeaning(files, paths, i);
  }

  /** A distribution name outside the resolver's cases gives an empty link
      list, on which `download`'s `url[0]` raises: the tasks of the
      distributions before it are submitted, none after. */
  lemma UnknownNameStopsDownloads(files: seq<seq<string>>, paths: seq<string>, maxWorkers: int, i: nat)
    requires maxWorkers > 0 && |files| == |paths| && i < |files| && files[i] == []
    requires forall j :: 0 <= j < i ==> |files[j]| > 0
    ensures |Plan(files, paths, maxWorkers).0| == i
    ensures Plan(files, paths, maxWorkers).1 == Some(IndexError)
  {
    PlanMeaning(files, paths, maxWorkers);
    var (tasks, err) := Plan(files, paths, maxWorkers);
    forall j | 0 <= j < i ensures TaskAt(files, paths, j).Ok? {
      TaskAtMeaning(files, paths, j);
    }
    TaskAtMeaning(files, paths, i);
    PlanPrefixMeaning(files, paths, |files|);
    assert TaskAt(files, paths, i).Fail?;
    assert err.Some?;
    assert TaskAt(files, paths, |tasks|).Fail?;
  }
}
