# ISO-Manager: a verified model of link resolution and download planning

ISO-Manager keeps a local mirror of Linux installation images. For each
distribution listed in its module files, it does four things:

1. It reads the `key = value` lines of the module file: category, FTP server,
   directory and option index.
2. It logs in to the server and walks the directory listing down to the
   newest image.
3. It builds an `https://` link to that image.
4. It downloads every link into `<download_path>/<category>` using a thread
   pool, in 32 KiB chunks. An interrupt can stop the download.

This project models the sequential logic of `ISO-Manager.py` in Dafny and
proves properties of it. The modules are:

- `Wrappers`: each Python exception becomes `Fail(e)` of `Result`. `MapResult`
  models a loop that stops at its first failure.
- `PyStr`: the parts of Python's `str` and `list` that the code relies on.
  These are `list.index`, negative subscripts, `split` on one character and on
  `"= "`, `strip()`, and `int()`/`str()` on decimal text.
- `PyRegex`: the two regular expressions, written as token lists with optional
  tokens, and `re.match` on them. The match is anchored at the start only.
- `Seqs`: order-preserving filtering and concatenation of chunks.
- `Ftp`: the FTP session is a `class` with a `dir` field. `Cwd` changes that
  field (or raises), and `Nlst` lists the directory from a fixed map of paths
  to listings.
- `Resolver`: `create_download_link`, `ubuntu_model_manager` (three layouts)
  and `ftp_traverse` (dispatch and the Arch rule).
  - Each is a specification function over the directory tree (`ResolveUbuntu`,
    `ResolveArch`, `Traverse`).
  - Each also has a method that drives a `Session` through the same `cwd`/`nlst`
    calls, with the same loops as the code (`UbuntuModelManager`,
    `CollectVersions`, `CollectFiles`, `CollectArchFiles`, `FtpTraverse`). The
    method is proved equal to the function.
- `ImageNames`: image names built from hyphen-separated tokens, and what
  `split('-')` and the extension test return on them.
- `Config`: the value of a configuration line, the in-place conversion loop of
  `update`, and `read_settings`.
- `Downloader`:
  - `download` as a loop that submits one task per link list. The loop stops
    at the first exception.
  - `copy_url` as a method that writes each chunk into a `DestFile` and adds
    its length to a `ProgressTask`. It stops at the end of the body, or right
    after the first chunk during which cancellation is seen.
- `Manager`: the loops of `update`, as methods proved equal to
  `UpdateRun`.
- `Scenarios`: resolutions of small listings.
  - A point release of plain Ubuntu.
  - A flavour whose newest version has no `release` directory.
  - An Arch listing.

  The scenarios are stated for every choice of hyphen-free tokens.
  `PointReleaseExample` and `PointReleaseImage` instantiate the first one with
  the listing `23.10`, `24.04`, `24.04.1` and the image
  `ubuntu-24.04.1-desktop-amd64.iso`.

Points of the code's behaviour that the model keeps as written:

- **Failures abort the run.** No exception is caught in `update`: a failure
  while reading a module file, resolving a distribution or planning a
  download ends the run. `FailureBeforeDownload` (a missing or malformed
  module file), `ResolutionFailureBeforeDownload` (a distribution that cannot
  be resolved) and `UnknownNameStopsDownloads` (a link list on which the planning
  loop raises) state this.
- **`.` excludes a newline.** In both patterns, `.` matches any character
  except `'\n'`, because Python compiles them without `DOTALL`.
- **Unknown names are not skipped.** `ftp_traverse` returns an empty list for
  a name outside its cases. `download` then raises on `url[0]`, so this
  distribution is not skipped either, and no later distribution is submitted.
- **The fallback does not re-check.** The fallback to the version before the
  latest enters `<cwd>/<v>/release` without checking that `release` is listed
  there.
- **Duplicate link lists share a directory.** `download` finds each list's
  directory with `urls.index(url)`. Two distributions that resolve to equal
  link lists therefore share the first one's directory and file.

## Model

| member | source | states |
|---|---|---|
| Wrappers.MapResultMeaning | ISO-Manager.py:188-194 | a loop that stops at its first failure succeeds exactly when every step succeeds; it then holds each step's value at its position, and otherwise fails with the error of some step |
| Wrappers.MapResultSticks | ISO-Manager.py:188-200 | once a prefix of the loop has failed, the whole loop fails with that error; nothing after it runs |
| PyStr.FirstIndex | ISO-Manager.py:96 | `list.index(x)` returns a position holding `x` with no `x` before it |
| PyStr.FirstIndexUnique | ISO-Manager.py:191 | a position holding `x` with no earlier `x` is the one `index` finds |
| PyStr.PyIndex | ISO-Manager.py:129 | a subscript succeeds exactly for `-len <= k < len`; a negative `k` counts from the end; otherwise it raises `IndexError` |
| PyStr.FindSep | ISO-Manager.py:191 | the position found holds `"= "` and no earlier position does; there is none exactly when the text holds no `"= "` |
| PyStr.SplitSep | ISO-Manager.py:191 | `split("= ")` gives at least one piece, and exactly one when the text holds no `"= "` |
| PyStr.JoinSplitSep | ISO-Manager.py:191 | joining the pieces of `split("= ")` with `"= "` gives back the text |
| PyStr.StripStart | ISO-Manager.py:191 | `lstrip()` drops a prefix of white space only and leaves a text that is empty or starts with a non-space |
| PyStr.StripEnd | ISO-Manager.py:191 | `rstrip()` drops a suffix of white space only and leaves a text that is empty or ends with a non-space |
| PyStr.StripPlain | ISO-Manager.py:191 | a text that neither starts nor ends with white space is its own stripped form |
| PyStr.ParseInt | ISO-Manager.py:149 | `int()` succeeds exactly when the stripped text is one or more ASCII digits with an optional `+` or `-` before them, and otherwise raises `ValueError`; the value is the number the digits write, negated after a `-` |
| PyStr.ParseRejectsNonDigit | ISO-Manager.py:149 | a text with no surrounding white space whose first character is not a digit or a sign, such as `"abc"`, raises `ValueError` |
| PyStr.Split | ISO-Manager.py:142 | `split(c)` gives at least one piece, at least two when `c` occurs, and no piece contains `c` |
| PyStr.JoinSplit | ISO-Manager.py:142 | joining the pieces of `split(c)` with `c` gives back the text |
| PyStr.SplitAtFirst | ISO-Manager.py:142 | splitting `a + c + b` with no `c` in `a` gives `a` followed by the pieces of `b` |
| PyStr.LastPieceIsSuffix | ISO-Manager.py:101 | `split(c)[-1]` is a suffix without `c`, preceded by `c` unless it is the whole text |
| PyStr.LastPieceAfter | ISO-Manager.py:101 | the text after the last `c` of `a + c + b`, where `b` has no `c`, is exactly `b` |
| PyStr.ExtensionIsIso | ISO-Manager.py:142 | `name.split(".")[-1] == "iso"` holds exactly for `"iso"` and for names ending in `".iso"`, in both directions |
| PyStr.SplitSepPiecesHaveNoSep | ISO-Manager.py:191 | no piece of `split("= ")` contains `"= "` |
| PyStr.SepAfter | ISO-Manager.py:191 | in `a + "= " + b` with no `"= "` in `a`, the first separator is the one right after `a`, and `split("= ")` gives `a` followed by the pieces of `b` |
| PyStr.StripKeepsNoSep | ISO-Manager.py:191 | `strip()` cannot create a `"= "` |
| PyStr.ShowNat | ISO-Manager.py:149 | the decimal writing of an option index, the place where `int(options)` parses it: a non-empty text of decimal digits, used to state `int()`'s inverse in `ParseShowInt` |
| PyStr.DigitsValueShowNat | ISO-Manager.py:149 | the digits of `str(n)` have the value `n` |
| PyStr.ParseShowInt | ISO-Manager.py:149 | `int(str(n)) == n` for every integer, negative ones included |
| PyStr.ShowIntPlain | ISO-Manager.py:43 | a written integer is its own stripped form and contains no `"= "` |
| PyRegex.MatchIffPrefixFullMatch | ISO-Manager.py:125 | `re.match` succeeds exactly when the pattern consumes some prefix of the text entirely: anchored at the start, not at the end |
| PyRegex.MatchExtends | ISO-Manager.py:125 | appending text to a matched text keeps the match |
| PyRegex.MatchNeedsMinLength | ISO-Manager.py:120 | a matched text is at least as long as the number of mandatory tokens |
| PyRegex.UbuntuVersionExamples | ISO-Manager.py:120 | `24.04` and `24.04.1` both match the version pattern |
| PyRegex.NonVersionExamples | ISO-Manager.py:120 | `current` and `4.10` do not match the version pattern |
| PyRegex.ArchDateExamples | ISO-Manager.py:171 | a build date such as `2024.10.01` matches the Arch pattern, with any text after it |
| PyRegex.ArchDateCounterExamples | ISO-Manager.py:171 | `x86_64.iso` and a truncated date do not match the Arch pattern |
| Ftp.Session.constructor | ISO-Manager.py:155-156 | a new session serves the given tree and starts in the login directory |
| Ftp.Session.Cwd | ISO-Manager.py:157 | `cwd` succeeds exactly for an existing directory and moves there; otherwise it raises with that path and stays put |
| Ftp.Session.Nlst | ISO-Manager.py:158 | `nlst` returns the listing of the current directory |
| Resolver.CreateDownloadLink | ISO-Manager.py:114-116 | the link is `https://`, then the server, then `cwd`, then `/` and the filename, with nothing else in it |
| Resolver.CollectVersions | ISO-Manager.py:120-126 | the first loop builds exactly the entries that match the version pattern, in listing order |
| Resolver.VersionsExactly | ISO-Manager.py:120-126 | an entry is a version exactly when it is listed and matches; the versions of a concatenation are the versions of each part |
| Resolver.SelectVersion | ISO-Manager.py:128-136 | a chosen version exists; it is the last version, or (layouts 1 and 2 only) the second-last; the directory searched is `<cwd>/<v>` plus `/release` for layouts 1 and 2, and exists on the server |
| Resolver.CollectFiles | ISO-Manager.py:138-146 | the second loop builds the file list `SelectFiles` defines, or raises with the first name that raises |
| Resolver.SelectFilesFailureSticks | ISO-Manager.py:145 | once a name raises, the whole file loop raises with that error |
| Resolver.KeepFileMeaning | ISO-Manager.py:140-146 | a name is kept exactly when it contains `-`, its token at index 1 (layouts 0 and 1) or 2 (layout 2) equals the version, and it ends in `.iso`; only a hyphenated name with too few tokens raises, and only for layout 2 |
| Resolver.SelectFilesMeaning | ISO-Manager.py:138-146 | the file list succeeds exactly when no name raises, and is then the kept names in listing order; a failure is an `IndexError` |
| Resolver.UbuntuModelManager | ISO-Manager.py:119-151 | driving the session through `cwd`/`nlst` gives the result of `ResolveUbuntu` on the server's tree |
| Resolver.LinkFromDirectoryMeaning | ISO-Manager.py:114-116 | the link is `https://<server><dir>/<file>` for the file at the option index, with Python's negative indexing; an out-of-range or non-integer option gives no link; the file list holds exactly the listed names that pass the test |
| Resolver.ResolveWithoutFallback | ISO-Manager.py:128-131 | without the fallback, the latest version is used and the images are read from `<cwd>/<latest>` (layout 0) or `<cwd>/<latest>/release` |
| Resolver.ResolveWithFallback | ISO-Manager.py:130-136 | with the fallback, exactly one step back: `versions[-2]` and its `release` directory, entered without checking it; a single version raises `IndexError` |
| Resolver.ResolveWithoutVersions | ISO-Manager.py:129 | a listing without version entries raises `IndexError` |
| Resolver.ShortNameAbortsThirdToken | ISO-Manager.py:145 | for layout 2, one hyphenated name with fewer than three tokens makes the whole resolution raise |
| Resolver.ResolveUbuntuSound | ISO-Manager.py:148-151 | every link built names the last or second-last version's directory and an accepted image listed in it: no partial or guessed link |
| Resolver.LinkFromDirectorySound | ISO-Manager.py:148-151 | a link found in a directory names an accepted image of that directory |
| Resolver.CollectArchFiles | ISO-Manager.py:172-176 | the Arch loop keeps exactly the entries with a hyphen, a second token that starts with a build date, and extension `iso`, in listing order |
| Resolver.ArchPicksFirst | ISO-Manager.py:170-178 | Arch links the first listed image, in `cwd` itself; without any image it raises `IndexError` |
| Resolver.RuleFor | ISO-Manager.py:160-170 | a name selects layout 0, 1 or 2, or the Arch rule, exactly when it is in that case group (the groups are disjoint), and no rule exactly when it is in none |
| Resolver.DispatchOnSession | ISO-Manager.py:160-179 | the `match os_name` block on the session gives the result of `Dispatch` |
| Resolver.FtpTraverse | ISO-Manager.py:154-179 | connecting, entering `cwd`, listing and dispatching gives the result of `Traverse` |
| Resolver.TraverseShape | ISO-Manager.py:160-179 | an unknown host raises; any other name gives an empty list; a name in the four case groups gives exactly one link or raises |
| ImageNames.HyphenateSplits | ISO-Manager.py:142 | splitting `a-b` at hyphens, with no hyphen in `a`, gives `a` and then the tokens of `b` |
| ImageNames.HyphenateKeepsIso | ISO-Manager.py:142 | a name ending in `.iso` keeps extension `iso` when a prefix and hyphen are put before it |
| ImageNames.ImageNameTokens | ISO-Manager.py:142 | the hyphen tokens of `<flavour>-<v>-<edition>-<arch>` are exactly those four tokens |
| ImageNames.ImageNameIsIso | ISO-Manager.py:142 | such a name with an `arch` ending in `.iso` has extension `iso` |
| ImageNames.ArchNameTokens | ISO-Manager.py:175 | the second hyphen token of `archlinux-<date>-<tail>` is the date, and the name has extension `iso` |
| Config.ConfigValue | ISO-Manager.py:191 | a value never contains `"= "`; a missing piece 1 raises `IndexError` |
| Config.ConfigValueDefined | ISO-Manager.py:191 | a line has a value exactly when it contains `"= "` |
| Config.ConfigValueOfLine | ISO-Manager.py:191 | `key= value`, with or without a further `"= rest"`, gives back the stripped value |
| Config.ConfigValuesMeaning | ISO-Manager.py:190-191 | converting a file succeeds exactly when every line has a `"= "`, and then holds each line's value at its position; a failure is an `IndexError` |
| Config.ConvertLines | ISO-Manager.py:190-191 | the in-place loop `temp[temp.index(line)] = value` writes each value at its own position (an earlier converted value never equals the current line), so it gives the line-by-line conversion |
| Config.ReadSettings | ISO-Manager.py:42-43 | settings exist only for at least two lines; the path is the first line's value, and the worker count is `int` of the second line's value |
| Config.ReadSettingsOfLines | ISO-Manager.py:42-43 | two well-formed lines, the second holding a written integer, give back the stripped path and that integer, whatever follows |
| Config.ReadSettingsTooShort | ISO-Manager.py:42-43 | a settings file with fewer than two lines raises `IndexError` |
| Config.DestinationDirEndsInCategory | ISO-Manager.py:203 | the category is the last path component of `<download_path>/<category>` |
| Downloader.PathJoin | ISO-Manager.py:102 | `os.path.join` keeps an absolute name as it is; otherwise the result starts with the directory and ends with the name |
| Downloader.TaskAtMeaning | ISO-Manager.py:95-104 | a task exists exactly when the directory list reaches `urls.index(url)` and the link list is non-empty; its link is `url[0]`, its directory is `dest_dirs[urls.index(url)]`, its filename is the text after the last `/` of the link (`url[0].split("/")[-1]`) and has no `/`, and its path joins the two |
| Downloader.TaskOfLink | ISO-Manager.py:95-104 | a link made by `create_download_link` from a non-empty `/`-free file name gives a task whose filename is that name and whose path is `os.path.join(dest_dirs[urls.index(url)], name)` |
| Downloader.Download | ISO-Manager.py:93-104 | the submitting loop gives the tasks and exception of `Plan` |
| Downloader.StopAtFailureSticks | ISO-Manager.py:95-104 | once the loop has raised, later link lists add nothing |
| Downloader.StopAtFailureMeaning | ISO-Manager.py:95-104 | without an exception there is one value per step, in order; with one, the values are those of the steps before the failing step, whose exception it is |
| Downloader.PlanPrefixMeaning | ISO-Manager.py:95-104 | without an exception there is one task per link list, in order; with one, the tasks are those of the lists before the failing one, whose task raised that exception |
| Downloader.PlanMeaning | ISO-Manager.py:93-104 | `download` raises exactly when there are no workers (`ValueError`, nothing submitted) or some task raises; otherwise it submits every task in order |
| Downloader.DuplicateSharesTask | ISO-Manager.py:96 | a link list equal to an earlier one gets the same task: the same directory and the same file |
| Downloader.FirstOccurrenceOwnDir | ISO-Manager.py:96-101 | a link list that does not occur earlier uses the directory at its own position; an empty list raises `IndexError` |
| Downloader.FilenameOfLink | ISO-Manager.py:101-102 | the filename of a resolved link is the file the resolver picked, written inside the destination directory |
| Downloader.ChunksOf | ISO-Manager.py:77 | each read is non-empty and at most 32768 bytes |
| Downloader.ChunksOfConcat | ISO-Manager.py:77 | the reads put back together are the body |
| Downloader.ChunksOfPrefix | ISO-Manager.py:77 | the first `k` reads hold the first `k * 32768` bytes of the body, or all of it |
| Downloader.Processed | ISO-Manager.py:77-81 | the number of reads written is between the starting read and the number of reads |
| Downloader.ProgressTask.constructor | ISO-Manager.py:103 | a new progress task has reported nothing and is not started |
| Downloader.DestFile.constructor | ISO-Manager.py:75 | a file opened for writing is empty |
| Downloader.CopyUrl | ISO-Manager.py:75-81 | the file holds exactly the reads up to the end of the body or up to the read after which cancellation was first seen; the progress count grows by the number of bytes written; the task is started |
| Downloader.NoCancelWritesAll | ISO-Manager.py:77-81 | without cancellation every read is written |
| Downloader.CancelAfterRead | ISO-Manager.py:78-81 | cancellation first seen after read `k` leaves exactly reads `0..k` written, because each read is written before the check |
| Downloader.CopyOfBody | ISO-Manager.py:77-81 | without cancellation the file is the whole body; cancellation first seen after read `k` leaves its first `(k + 1) * 32768` bytes, or all of it |
| Manager.DescriptorMeaning | ISO-Manager.py:188-194 | a descriptor exists exactly when the module file exists and each of its lines has a `"= "`; it is then the name followed by each line's value in order; a missing file raises for that name |
| Manager.ReadDescriptors | ISO-Manager.py:188-194 | the first loop of `update` gives every descriptor, or the first failure |
| Manager.ResolveMeaning | ISO-Manager.py:197-200 | a descriptor with fewer than five entries raises `IndexError` before any connection; otherwise its links are those of `ftp_traverse(d[0], d[2], d[3], d[4])` and its category is `d[1]` |
| Manager.ResolveDescriptor | ISO-Manager.py:199-200 | resolving one descriptor over live sessions gives the result of `Resolve` |
| Manager.ResolveDescriptors | ISO-Manager.py:197-200 | the second loop looks each descriptor up again through `os_objects.index`, and gives every resolution or the first failure |
| Manager.Files | ISO-Manager.py:199 | the links handed to `download` are the link lists of the distributions, in order |
| Manager.DownloadPaths | ISO-Manager.py:202-203 | one destination `<download_path>/<category>` per distribution, in order |
| Manager.SplitResolved | ISO-Manager.py:197-200 | the second loop collects the link lists and the categories of the distributions, in order |
| Manager.CategoryPaths | ISO-Manager.py:202-203 | the third loop builds `<download_path>/<category>` for each category, in order |
| Manager.Update | ISO-Manager.py:182-209 | the loops of `update` and then `download` give the tasks and exception of `UpdateRun` |
| Manager.FailureBeforeDownload | ISO-Manager.py:188-194 | the first missing module file, or module file with a line without `"= "`, ends the run with its exception before any task is submitted |
| Manager.ResolutionFailureBeforeDownload | ISO-Manager.py:197-200 | the first distribution that cannot be resolved ends the run with its exception before any task is submitted |
| Manager.TasksFollowDistributions | ISO-Manager.py:197-209 | when everything resolves, the `i`-th task downloads the first link of the `i`-th distribution into its category's directory, or into the directory of the first distribution with an equal list |
| Manager.UnknownNameStopsDownloads | ISO-Manager.py:101 | an empty link list makes `url[0]` raise: the tasks before it are submitted and none after |
| Scenarios.ImageNameKept | ISO-Manager.py:140-143 | an image named `<flavour>-<v>-<edition>-<arch>` with an `arch` ending in `.iso` is kept for version `v` by layouts 0 and 1 |
| Scenarios.FirstFileLink | ISO-Manager.py:148-149 | option `0` on a directory with one image links to that image |
| Scenarios.AllVersions | ISO-Manager.py:120-126 | a listing of version entries only is its own version list |
| Scenarios.PointReleaseScenario | ISO-Manager.py:119-151 | plain Ubuntu whose latest version directory holds a checksum file and an image of that version resolves, with option `0`, to `https://<server><cwd>/<v>/<image>` |
| Scenarios.PointReleaseImage | ISO-Manager.py:140-143 | `ubuntu-24.04.1-desktop-amd64.iso` is kept as an image of `24.04.1` |
| Scenarios.OlderReleases | ISO-Manager.py:125 | `23.10` and `24.04` are versions |
| Scenarios.ChecksumFile | ISO-Manager.py:140 | `SHA256SUMS` has no hyphen and is not kept |
| Scenarios.PointReleaseExample | ISO-Manager.py:119-151 | the listing `23.10`, `24.04`, `24.04.1` of plain Ubuntu, with `SHA256SUMS` and an image of `24.04.1` in `/ubuntu/24.04.1`, resolves with option `0` to `https://<server>/ubuntu/24.04.1/<image>` |
| Scenarios.BetaFallbackScenario | ISO-Manager.py:128-151 | a flavour whose newest version has no `release` listed resolves to the image in `<cwd>/<previous>/release` |
| Scenarios.ArchNameIsImage | ISO-Manager.py:175 | `archlinux-<date>-<tail>`, with a build date and a tail ending in `.iso`, passes the Arch test |
| Scenarios.ArchFirstBuildScenario | ISO-Manager.py:170-178 | an Arch listing of a checksum file, then an image, then anything, links to that image |

## Left out

- The network. `ftplib.FTP`, `login` and `urlopen` are not modelled. A
  server is a map from directory path to listing, and an unreachable host is
  one missing from the map of servers. A response body is a parameter: a
  sequence of reads, or a byte sequence cut into 32768-byte reads.
- FTP path handling. Servers do not normalise paths: `cwd` succeeds only for a
  path the map holds. `nlst` of a directory the map lacks returns an empty
  list; only the initial login directory can be such a directory. `cwd`
  arguments are used as given: a relative `cwd` read from a module file is
  not resolved against the session's current directory, as a real server
  would do for the second `ftp.cwd(cwd + "/<v>")` (ISO-Manager.py:129, 131,
  136). The tree's keys stand for the literal argument strings.
- The `Content-length` lookup and `progress.update(total=...)` in `copy_url`
  (ISO-Manager.py:74). The progress total is not modelled, only the bytes
  reported.
- File system effects: `exists`/`os.makedirs` in `download`, and `open`/
  `readlines` in `read_conf` and `read_settings`. Module files are given as
  their lines, keyed by distribution name. A missing file raises
  `MissingConf`.
- Concurrency. The thread pool, the scheduling of submitted tasks, and the
  shared `rich` progress display are not modelled. A submitted task is a
  `Task` value, and `copy_url` is modelled for one task on its own.
- Signals. `SIGINT` and the shared `Event` are modelled as a sequence of
  booleans: the state of the flag after each read.
- The interactive menu in `main` (ISO-Manager.py:212-297), `print` output,
  the `test` argument of `update`, and the `BLOCK_DOWNLOAD` and
  `TEST_FTP_CONNECTION` switches. The model takes `test=False` and
  `BLOCK_DOWNLOAD=False`.
- The global variables of `read_settings` are not modelled. `ReadSettings`
  returns a `Settings` value that `Update` takes as a parameter.
- PyStr.ParseInt: models `int()` on ASCII decimal text, with surrounding
  whitespace and an optional sign. It does not model underscores between
  digits or non-ASCII digits, which Python also accepts.
- Web-index families (garuda, kali, mint, manjaro) and the archiving of stale
  images: `ISO-Manager.py` has no code for them.
