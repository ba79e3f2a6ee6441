/** Resolution of one distribution to one download link (ISO-Manager.py,
    `create_download_link`, `ubuntu_model_manager` and `ftp_traverse`).

    Each resolver is given twice: as a specification function over the
    server's directory tree (`ResolveUbuntu`, `ResolveArch`, `Traverse`) and
    as the method that drives an FTP session the way the source does
    (`UbuntuModelManager`, `FtpTraverse`), proved equal to the function. */
module Resolver {
  import opened Wrappers
  import opened PyStr
  import opened PyRegex
  import opened Seqs
  import opened Ftp

  /** The `version` argument of `ubuntu_model_manager`. */
  datatype Layout =
    | Flat              // 0: images directly in <cwd>/<version>, version is hyphen token 1
    | Release           // 1: images in <cwd>/<version>/release, version is hyphen token 1
    | ReleaseThirdToken // 2: images in <cwd>/<version>/release, version is hyphen token 2

  /** Which hyphen-separated token of an image name must equal the version. */
  function VersionToken(layout: Layout): nat
  {
    if layout == ReleaseThirdToken then 2 else 1
  }

  /** The directory the images are listed in, below the version directory. */
  function ImageSubdir(layout: Layout): string
  {
    if layout == Flat then "" else "/release"
  }

  /** `f"https://{server}{cwd}/{filename}"`. */
  function CreateDownloadLink(server: string, cwd: string, filename: string): (r: string)
    ensures |r| == |"https://"| + |server| + |cwd| + 1 + |filename|
    ensures r[..8] == "https://" && r[8..8 + |server|] == server
    ensures r[8 + |server|..8 + |server| + |cwd|] == cwd
    ensures r[|r| - |filename| - 1] == '/' && r[|r| - |filename|..] == filename
  {
    "https://" + server + cwd + "/" + filename
  }

  // ---------------------------------------------------------------------------
  // Ubuntu family: versions
  // ---------------------------------------------------------------------------

  /** `regex.match(entry)` with the release-number pattern. */
  predicate IsVersion(entry: string)
  {
    Match(UbuntuVersion, entry)
  }

  /** The `versions` list: the entries whose start matches the pattern, in listing order. */
  function Versions(entries: seq<string>): seq<string>
  {
    Filter(entries, IsVersion)
  }

  /** The first loop of `ubuntu_model_manager`. */
  method CollectVersions(entries: seq<string>) returns (versions: seq<string>)
    ensures versions == Versions(entries)
  {
    versions := [];
    for i := 0 to |entries|
      invariant versions == Versions(entries[..i])
    {
      assert entries[..i + 1][..i] == entries[..i];
      if IsVersion(entries[i]) {
        versions := versions + [entries[i]];
      }
    }
    assert entries[..|entries|] == entries;
  }

  /** The version list holds exactly the listed names that match, in listing
      order: filtering a concatenation filters each part. */
  lemma VersionsExactly(entries: seq<string>, more: seq<string>, x: string)
    ensures x in Versions(entries) <==> x in entries && Match(UbuntuVersion, x)
    ensures Versions(entries + more) == Versions(entries) + Versions(more)
  {
    FilterMembers(entries, IsVersion, x);
    FilterAppend(entries, more, IsVersion);
  }

  // ---------------------------------------------------------------------------
  // Ubuntu family: the version directory, with the one-step fallback
  // ---------------------------------------------------------------------------

  /** `ftp.cwd(cwd + f"/{v}/release")`. */
  function DescendRelease(tree: Tree, cwd: string, v: string): (r: Result<(string, string)>)
  {
    var dir := cwd + "/" + v + "/release";
    if dir in tree then Ok((v, dir)) else Fail(FtpError(dir))
  }

  /** The version `versions[up_to_date_version]` and the directory whose
      listing is searched for images. */
  function SelectVersion(tree: Tree, cwd: string, versions: seq<string>, layout: Layout)
    : (r: Result<(string, string)>)
    ensures r.Ok? ==> r.value.1 in tree
    ensures r.Ok? ==> |versions| > 0
    ensures r.Ok? ==> r.value.1 == cwd + "/" + r.value.0 + ImageSubdir(layout)
    ensures r.Ok? ==> r.value.0 == versions[|versions| - 1] ||
                      (layout != Flat && |versions| >= 2 && r.value.0 == versions[|versions| - 2])
  {
    var latest :- PyIndex(versions, -1);
    var latestDir := cwd + "/" + latest;
    if latestDir !in tree then Fail(FtpError(latestDir))
    else if layout == Flat then Ok((latest, latestDir))
    else if "release" in tree[latestDir] then DescendRelease(tree, cwd, latest)
    else
      var previous :- PyIndex(versions, -2);
      DescendRelease(tree, cwd, previous)
  }

  // ---------------------------------------------------------------------------
  // Ubuntu family: the image files
  // ---------------------------------------------------------------------------

  /** The test of the second loop of `ubuntu_model_manager` on one name: false
      without a hyphen; otherwise the version token must equal `version` and the
      extension must be "iso". For layout 2 a name with fewer than three hyphen
      tokens makes `split('-')[2]` raise. */
  function KeepFile(layout: Layout, version: string, name: string): Result<bool>
  {
    if '-' !in name then Ok(false)
    else
      var tokens := Split(name, '-');
      if VersionToken(layout) >= |tokens| then Fail(IndexError)
      else Ok(tokens[VersionToken(layout)] == version && LastPiece(name, '.') == "iso")
  }

  /** The `files` list built by the second loop; the first name that raises ends it. */
  function SelectFiles(layout: Layout, version: string, names: seq<string>): Result<seq<string>>
  {
    if |names| == 0 then Ok([])
    else
      var files :- SelectFiles(layout, version, names[..|names| - 1]);
      var keep :- KeepFile(layout, version, names[|names| - 1]);
      Ok(files + if keep then [names[|names| - 1]] else [])
  }

  /** The names `KeepFile` accepts. */
  predicate IsImageOf(layout: Layout, version: string, name: string)
  {
    KeepFile(layout, version, name) == Ok(true)
  }

  /** The second loop of `ubuntu_model_manager`. */
  method CollectFiles(layout: Layout, version: string, names: seq<string>)
    returns (r: Result<seq<string>>)
    ensures r == SelectFiles(layout, version, names)
  {
    var files := [];
    for i := 0 to |names|
      invariant SelectFiles(layout, version, names[..i]) == Ok(files)
    {
      assert names[..i + 1][..i] == names[..i] && names[..i + 1][i] == names[i];
      var keep := KeepFile(layout, version, names[i]);
      if keep.Fail? {
        r := Fail(keep.error);
        assert SelectFiles(layout, version, names[..i + 1]) == r;
        SelectFilesFailureSticks(layout, version, names, i + 1);
        return;
      }
      assert SelectFiles(layout, version, names[..i + 1]) ==
        Ok(files + if keep.value then [names[i]] else []);
      if keep.value {
        files := files + [names[i]];
      } else {
        assert files + [] == files;
      }
    }
    assert names[..|names|] == names;
    r := Ok(files);
  }

  /** Once a prefix of the listing raises, the whole listing does, with the same error. */
  lemma {:induction false} SelectFilesFailureSticks(layout: Layout, version: string, names: seq<string>, k: nat)
    requires k <= |names| && SelectFiles(layout, version, names[..k]).Fail?
    ensures SelectFiles(layout, version, names) == SelectFiles(layout, version, names[..k])
    decreases |names| - k
  {
    if k < |names| {
      assert names[..k + 1][..k] == names[..k];
      SelectFilesFailureSticks(layout, version, names, k + 1);
    } else {
      assert names[..k] == names;
    }
  }

  /** A name is kept exactly when it contains "-", its token at the layout's
      index equals the version, and it ends in ".iso"; and only a name with a
      hyphen but too few tokens, possible for layout 2 alone, raises. */
  lemma KeepFileMeaning(layout: Layout, version: string, name: string)
    ensures KeepFile(layout, version, name).Fail? <==>
              '-' in name && |Split(name, '-')| <= VersionToken(layout)
    ensures KeepFile(layout, version, name).Fail? ==> layout == ReleaseThirdToken
    ensures IsImageOf(layout, version, name) <==>
              '-' in name && |Split(name, '-')| > VersionToken(layout) &&
              Split(name, '-')[VersionToken(layout)] == version &&
              (name == "iso" || (|name| >= 4 && name[|name| - 4..] == ".iso"))
  {
    ExtensionIsIso(name);
  }

  /** The file list succeeds exactly when no name raises, and is then the
      accepted names in listing order. */
  lemma {:induction false} SelectFilesMeaning(layout: Layout, version: string, names: seq<string>)
    ensures SelectFiles(layout, version, names).Ok? <==>
              forall i :: 0 <= i < |names| ==> KeepFile(layout, version, names[i]).Ok?
    ensures SelectFiles(layout, version, names).Ok? ==>
              SelectFiles(layout, version, names).value == Filter(names, n => IsImageOf(layout, version, n))
    ensures SelectFiles(layout, version, names).Fail? ==>
              SelectFiles(layout, version, names).error == IndexError
  {
    if |names| > 0 {
      var init := names[..|names| - 1];
      SelectFilesMeaning(layout, version, init);
      assert forall i :: 0 <= i < |init| ==> init[i] == names[i];
    }
  }

  // ---------------------------------------------------------------------------
  // Ubuntu family: the whole resolution
  // ---------------------------------------------------------------------------

  /** The last lines of `ubuntu_model_manager`: pick `files[int(options)]` among
      the images in `dir` and build the link. */
  function LinkFromDirectory(server: string, dir: string, names: seq<string>, layout: Layout,
                             version: string, options: string): Result<string>
  {
    var files :- SelectFiles(layout, version, names);
    var k :- ParseInt(options);
    var file :- PyIndex(files, k);
    Ok(CreateDownloadLink(server, dir, file))
  }

  /** `ubuntu_model_manager(server, cwd, options, ftp, entries, version)` over the tree. */
  function ResolveUbuntu(tree: Tree, server: string, cwd: string, options: string,
                         entries: seq<string>, layout: Layout): Result<string>
  {
    var chosen :- SelectVersion(tree, cwd, Versions(entries), layout);
    LinkFromDirectory(server, chosen.1, tree[chosen.1], layout, chosen.0, options)
  }

  /** `ubuntu_model_manager`, driving the session through its `cwd`/`nlst` calls. */
  method UbuntuModelManager(server: string, cwd: string, options: string, ftp: Session,
                            entries: seq<string>, layout: Layout) returns (r: Result<string>)
    modifies ftp
    ensures r == ResolveUbuntu(ftp.tree, server, cwd, options, entries, layout)
  {
    var versions := CollectVersions(entries);
    var latest :- PyIndex(versions, -1);
    var _ :- ftp.Cwd(cwd + "/" + latest);
    var chosen := latest;
    if layout != Flat {
      var names := ftp.Nlst();
      if "release" !in names {
        // the source prints "skipping beta version" here
        chosen :- PyIndex(versions, -2);
      }
      var _ :- ftp.Cwd(cwd + "/" + chosen + "/release");
    }
    var newest := ftp.Nlst();
    var files :- CollectFiles(layout, chosen, newest);
    var k :- ParseInt(options);
    var file :- PyIndex(files, k);
    r := Ok(CreateDownloadLink(server, cwd + "/" + chosen + ImageSubdir(layout), file));
  }

  /** The link found in a directory is `https://<server><dir>/<file>` for a file
      of that directory that passes the image test, picked by the option index
      with Python's negative indexing; an option outside the file list's range
      or one that is not an integer gives no link. */
  lemma LinkFromDirectoryMeaning(server: string, dir: string, names: seq<string>, layout: Layout,
                                 version: string, options: string)
    requires SelectFiles(layout, version, names).Ok?
    ensures var files := SelectFiles(layout, version, names).value;
            var r := LinkFromDirectory(server, dir, names, layout, version, options);
            match ParseInt(options)
            case Fail(e) => r == Fail(e)
            case Ok(k) =>
              if -|files| <= k < |files| then
                r == Ok("https://" + server + dir + "/" + files[if k >= 0 then k else |files| + k])
              else r == Fail(IndexError)
    ensures var files := SelectFiles(layout, version, names).value;
            forall f :: f in files <==> f in names && IsImageOf(layout, version, f)
  {
    SelectFilesMeaning(layout, version, names);
    var files := SelectFiles(layout, version, names).value;
    forall f ensures f in files <==> f in names && IsImageOf(layout, version, f) {
      FilterMembers(names, n => IsImageOf(layout, version, n), f);
    }
  }

  /** Without the fallback (layout 0, or "release" listed in the latest version's
      directory) the latest version is used and the images are looked up in
      `<cwd>/<latest>` or `<cwd>/<latest>/release`. */
  lemma ResolveWithoutFallback(tree: Tree, server: string, cwd: string, options: string,
                               entries: seq<string>, layout: Layout)
    requires |Versions(entries)| > 0
    requires cwd + "/" + Versions(entries)[|Versions(entries)| - 1] in tree
    requires layout == Flat || "release" in tree[cwd + "/" + Versions(entries)[|Versions(entries)| - 1]]
    ensures var v := Versions(entries)[|Versions(entries)| - 1];
            var dir := cwd + "/" + v + ImageSubdir(layout);
            ResolveUbuntu(tree, server, cwd, options, entries, layout) ==
              if dir in tree then LinkFromDirectory(server, dir, tree[dir], layout, v, options)
              else Fail(FtpError(dir))
  {
  }

  /** With the fallback (layouts 1 and 2 and no "release" in the latest
      version's directory) the version used is the one before the latest, never
      an earlier one, and its "release" directory is entered without checking
      that it is listed; with a single version the lookup raises. */
  lemma ResolveWithFallback(tree: Tree, server: string, cwd: string, options: string,
                            entries: seq<string>, layout: Layout)
    requires layout != Flat
    requires |Versions(entries)| > 0
    requires cwd + "/" + Versions(entries)[|Versions(entries)| - 1] in tree
    requires "release" !in tree[cwd + "/" + Versions(entries)[|Versions(entries)| - 1]]
    ensures var vs := Versions(entries);
            ResolveUbuntu(tree, server, cwd, options, entries, layout) ==
              if |vs| < 2 then Fail(IndexError)
              else
                var dir := cwd + "/" + vs[|vs| - 2] + "/release";
                if dir in tree then LinkFromDirectory(server, dir, tree[dir], layout, vs[|vs| - 2], options)
                else Fail(FtpError(dir))
  {
  }

  /** No version-like entry means no link. */
  lemma ResolveWithoutVersions(tree: Tree, server: string, cwd: string, options: string,
                               entries: seq<string>, layout: Layout)
    requires forall i :: 0 <= i < |entries| ==> !Match(UbuntuVersion, entries[i])
    ensures ResolveUbuntu(tree, server, cwd, options, entries, layout) == Fail(IndexError)
  {
    NoneKept(entries, IsVersion);
  }

  /** For layout 2 a hyphenated name with fewer than three tokens in the chosen
      directory makes the resolution raise, whatever else that directory holds. */
  lemma ShortNameAbortsThirdToken(server: string, dir: string, names: seq<string>,
                                  version: string, options: string, i: nat)
    requires i < |names| && '-' in names[i] && |Split(names[i], '-')| < 3
    ensures LinkFromDirectory(server, dir, names, ReleaseThirdToken, version, options) == Fail(IndexError)
  {
    SelectFilesMeaning(ReleaseThirdToken, version, names);
  }

  /** A link is only ever built from the chosen version's directory and one of
      its accepted images: there is no partial or guessed link. */
  lemma ResolveUbuntuSound(tree: Tree, server: string, cwd: string, options: string,
                           entries: seq<string>, layout: Layout)
    requires ResolveUbuntu(tree, server, cwd, options, entries, layout).Ok?
    ensures |Versions(entries)| > 0
    ensures var vs := Versions(entries);
            var url := ResolveUbuntu(tree, server, cwd, options, entries, layout).value;
            exists v, f :: (v == vs[|vs| - 1] || (|vs| >= 2 && v == vs[|vs| - 2])) &&
              f in Listing(tree, cwd + "/" + v + ImageSubdir(layout)) && IsImageOf(layout, v, f) &&
              url == CreateDownloadLink(server, cwd + "/" + v + ImageSubdir(layout), f)
  {
    var vs := Versions(entries);
    var chosen := SelectVersion(tree, cwd, vs, layout).value;
    var v, dir := chosen.0, chosen.1;
    LinkFromDirectorySound(server, dir, tree[dir], layout, v, options);
    var f :| f in tree[dir] && IsImageOf(layout, v, f) &&
             LinkFromDirectory(server, dir, tree[dir], layout, v, options).value == CreateDownloadLink(server, dir, f);
  }

  /** A link found in a directory names an accepted image of that directory. */
  lemma LinkFromDirectorySound(server: string, dir: string, names: seq<string>, layout: Layout,
                               version: string, options: string)
    requires LinkFromDirectory(server, dir, names, layout, version, options).Ok?
    ensures exists f :: f in names && IsImageOf(layout, version, f) &&
              LinkFromDirectory(server, dir, names, layout, version, options).value == CreateDownloadLink(server, dir, f)
  {
    LinkFromDirectoryMeaning(server, dir, names, layout, version, options);
    var files := SelectFiles(layout, version, names).value;
    var k := ParseInt(options).value;
    var f := files[if k >= 0 then k else |files| + k];
    assert f in files;
  }

  // ---------------------------------------------------------------------------
  // Arch
  // ---------------------------------------------------------------------------

  /** The test of the `arch` loop: a hyphen, a second hyphen token that starts
      with a build date, and extension "iso". */
  predicate IsArchImage(name: string)
  {
    '-' in name && Match(ArchDate, Split(name, '-')[1]) && LastPiece(name, '.') == "iso"
  }

  /** The `arch` branch of `ftp_traverse`: the first listed image, in `cwd` itself. */
  function ResolveArch(server: string, cwd: string, entries: seq<string>): Result<string>
  {
    var files := Filter(entries, IsArchImage);
    var file :- PyIndex(files, 0);
    Ok(CreateDownloadLink(server, cwd, file))
  }

  /** The loop of the `arch` branch. */
  method CollectArchFiles(entries: seq<string>) returns (files: seq<string>)
    ensures files == Filter(entries, IsArchImage)
  {
    files := [];
    for i := 0 to |entries|
      invariant files == Filter(entries[..i], IsArchImage)
    {
      assert entries[..i + 1][..i] == entries[..i];
      if '-' in entries[i] && Match(ArchDate, Split(entries[i], '-')[1]) && LastPiece(entries[i], '.') == "iso" {
        files := files + [entries[i]];
      }
    }
    assert entries[..|entries|] == entries;
  }

  /** Arch yields the link of the first listed image when there is one, and
      raises when there is none. */
  lemma {:induction false} ArchPicksFirst(server: string, cwd: string, entries: seq<string>, k: nat)
    requires k <= |entries|
    requires forall j :: 0 <= j < k ==> !IsArchImage(entries[j])
    ensures k == |entries| ==> ResolveArch(server, cwd, entries) == Fail(IndexError)
    ensures k < |entries| && IsArchImage(entries[k]) ==>
              ResolveArch(server, cwd, entries) == Ok("https://" + server + cwd + "/" + entries[k])
  {
    if k == |entries| {
      NoneKept(entries, IsArchImage);
    } else if IsArchImage(entries[k]) {
      FilterFirst(entries, IsArchImage, k);
    }
  }

  // ---------------------------------------------------------------------------
  // Dispatch
  // ---------------------------------------------------------------------------

  /** The resolution rule a distribution name selects. */
  datatype Rule = Ubuntu(layout: Layout) | Arch

  /** The case groups of `match os_name`. */
  const FlatNames: set<string> := {"ubuntu", "ubuntu-server"}
  const ReleaseNames: set<string> :=
    {"edubuntu", "ubuntu-cinnamon", "lubuntu", "kubuntu", "xubuntu", "xubuntu-minimal", "ubuntu-studio"}
  const ThirdTokenNames: set<string> := {"ubuntu-budgie", "ubuntu-unity", "ubuntu-mate"}

  /** The `match os_name` of `ftp_traverse`: the cases are tried in order, but
      no name is in two groups, so each name selects the rule of its own group;
      other names match no case. */
  function RuleFor(name: string): (r: Option<Rule>)
    ensures r == Some(Ubuntu(Flat)) <==> name in FlatNames
    ensures r == Some(Ubuntu(Release)) <==> name in ReleaseNames
    ensures r == Some(Ubuntu(ReleaseThirdToken)) <==> name in ThirdTokenNames
    ensures r == Some(Arch) <==> name == "arch"
    ensures r == None <==> name !in FlatNames + ReleaseNames + ThirdTokenNames + {"arch"}
  {
    if name in FlatNames then Some(Ubuntu(Flat))
    else if name in ReleaseNames then Some(Ubuntu(Release))
    else if name in ThirdTokenNames then Some(Ubuntu(ReleaseThirdToken))
    else if name == "arch" then Some(Arch)
    else None
  }

  /** The `match os_name` block of `ftp_traverse` on the listing of `cwd`. */
  function Dispatch(tree: Tree, rule: Option<Rule>, server: string, cwd: string, options: string,
                    entries: seq<string>): Result<seq<string>>
  {
    match rule
    case None => Ok([])
    case Some(Ubuntu(layout)) =>
      var link :- ResolveUbuntu(tree, server, cwd, options, entries, layout);
      Ok([link])
    case Some(Arch) =>
      var link :- ResolveArch(server, cwd, entries);
      Ok([link])
  }

  /** `ftp_traverse(os_name, server, cwd, options)`, where `servers` gives the
      directory tree of every host that answers. */
  function Traverse(servers: map<string, Tree>, name: string, server: string, cwd: string,
                    options: string): Result<seq<string>>
  {
    if server !in servers then Fail(ConnectError(server))
    else if cwd !in servers[server] then Fail(FtpError(cwd))
    else Dispatch(servers[server], RuleFor(name), server, cwd, options, servers[server][cwd])
  }

  /** The `match os_name` block, on the open session. */
  method DispatchOnSession(ftp: Session, rule: Option<Rule>, server: string, cwd: string,
                           options: string, entries: seq<string>) returns (r: Result<seq<string>>)
    modifies ftp
    ensures r == Dispatch(ftp.tree, rule, server, cwd, options, entries)
  {
    var returnFiles := [];
    match rule {
      case None =>
      case Some(Ubuntu(layout)) =>
        var link := UbuntuModelManager(server, cwd, options, ftp, entries, layout);
        if link.Fail? {
          return Fail(link.error);
        }
        returnFiles := returnFiles + [link.value];
        assert returnFiles == [link.value];
      case Some(Arch) =>
        var files := CollectArchFiles(entries);
        var file := PyIndex(files, 0);
        if file.Fail? {
          return Fail(file.error);
        }
        returnFiles := returnFiles + [CreateDownloadLink(server, cwd, file.value)];
        assert returnFiles == [CreateDownloadLink(server, cwd, file.value)];
    }
    r := Ok(returnFiles);
  }

  /** `ftp_traverse`: connect, log in, enter `cwd`, list it, dispatch. */
  method FtpTraverse(servers: map<string, Tree>, name: string, server: string, cwd: string,
                     options: string) returns (r: Result<seq<string>>)
    ensures r == Traverse(servers, name, server, cwd, options)
  {
    if server !in servers {
      return Fail(ConnectError(server));
    }
    var ftp := new Session(servers[server]);
    var _ :- ftp.Cwd(cwd);
    var entries := ftp.Nlst();
    r := DispatchOnSession(ftp, RuleFor(name), server, cwd, options, entries);
  }

  /** Once the host answers and `cwd` exists, any name outside the four case
      groups yields an empty list, and a name inside them yields a list of
      exactly one link or raises; an unreachable host or a missing `cwd` raises
      whatever the name. */
  lemma TraverseShape(servers: map<string, Tree>, name: string, server: string, cwd: string,
                      options: string)
    ensures server !in servers ==> Traverse(servers, name, server, cwd, options) == Fail(ConnectError(server))
    ensures server in servers && cwd in servers[server] && RuleFor(name).None? ==>
              Traverse(servers, name, server, cwd, options) == Ok([])
    ensures RuleFor(name).Some? && Traverse(servers, name, server, cwd, options).Ok? ==>
              |Traverse(servers, name, server, cwd, options).value| == 1
  {
  }
}
