/** Resolutions of small listings: a point release of plain Ubuntu, a flavour
    whose newest version has no "release" directory yet, and two Arch builds.
    The image names are built from their hyphen tokens, so the lemmas hold
    for every choice of tokens, "ubuntu", "24.04.1", "desktop", "amd64.iso"
    among them. */
module Scenarios {
  import opened Wrappers
  import opened PyStr
  import opened PyRegex
  import opened Seqs
  import opened Ftp
  import opened Resolver
  import opened ImageNames

  /** The option "0" picks the first file. */
  lemma ParseZero()
    ensures ParseInt("0") == Ok(0)
  {
    ParseShowInt(0);
    assert ShowInt(0) == "0";
  }

  /** Of two names the second loop keeps just the second. */
  lemma SelectSecondOfTwo(layout: Layout, version: string, a: string, b: string)
    requires KeepFile(layout, version, a) == Ok(false)
    requires KeepFile(layout, version, b) == Ok(true)
    ensures SelectFiles(layout, version, [a, b]) == Ok([b])
  {
    var s := [a, b];
    var none: seq<string> := [];
    assert s[..1][..0] == none;
    assert SelectFiles(layout, version, s[..1][..0]) == Ok(none);
    assert s[..1][|s[..1]| - 1] == a;
    assert none + none == none;
    assert SelectFiles(layout, version, s[..1]) == Ok(none);
    assert s[..|s| - 1] == s[..1] && s[|s| - 1] == b;
    assert none + [b] == [b];
  }

  /** A single name the second loop keeps. */
  lemma SelectOnly(layout: Layout, version: string, a: string)
    requires KeepFile(layout, version, a) == Ok(true)
    ensures SelectFiles(layout, version, [a]) == Ok([a])
  {
    var s := [a];
    assert s[..0] == [];
    assert SelectFiles(layout, version, s[..0]) == Ok([]);
    assert [] + [a] == [a];
  }

  /** An image name whose second token is `v` and whose extension is "iso" is
      kept by layouts 0 and 1 when looking for `v`. */
  lemma ImageNameKept(flavour: string, v: string, edition: string, arch: string)
    requires '-' !in flavour && '-' !in v && '-' !in edition && '-' !in arch
    requires |arch| >= 4 && arch[|arch| - 4..] == ".iso"
    ensures IsImageOf(Flat, v, ImageName(flavour, v, edition, arch))
    ensures IsImageOf(Release, v, ImageName(flavour, v, edition, arch))
  {
    var image := ImageName(flavour, v, edition, arch);
    assert '-' in image by {
      assert image == flavour + "-" + Hyphenate(v, Hyphenate(edition, arch));
      assert image[|flavour|] == '-';
    }
    var tokens := Split(image, '-');
    assert tokens == [flavour, v, edition, arch] by {
      ImageNameTokens(flavour, v, edition, arch);
    }
    assert LastPiece(image, '.') == "iso" by {
      ImageNameIsIso(flavour, v, edition, arch);
    }
    assert tokens[1] == v;
  }

  /** Option "0" on a directory holding one image links to that image. */
  lemma FirstFileLink(server: string, dir: string, names: seq<string>, layout: Layout,
                      version: string, image: string)
    requires SelectFiles(layout, version, names) == Ok([image])
    ensures LinkFromDirectory(server, dir, names, layout, version, "0")
              == Ok(CreateDownloadLink(server, dir, image))
  {
    ParseZero();
  }

  /** Version entries, older ones (such as `23.10` and `24.04`) first, then
      the latest `v` (such as the point release `24.04.1`): all of them are
      versions. */
  lemma AllVersions(older: seq<string>, latest: seq<string>)
    requires forall i :: 0 <= i < |older| ==> Match(UbuntuVersion, older[i])
    requires forall i :: 0 <= i < |latest| ==> Match(UbuntuVersion, latest[i])
    ensures Versions(older + latest) == older + latest
  {
    var entries := older + latest;
    forall i | 0 <= i < |entries| ensures IsVersion(entries[i]) {
      if i < |older| {
        assert entries[i] == older[i];
      } else {
        assert entries[i] == latest[i - |older|];
      }
    }
    FilterKeepsAll(entries, IsVersion);
  }

  /** Older versions, then the latest `v` whose directory holds a file without
      a hyphen (such as `SHA256SUMS`) and an image of `v` (such as the one
      `ImageNameKept` describes): layout 0 with option "0" resolves to the link
      ending in the image. */
  lemma PointReleaseScenario(server: string, cwd: string, older: seq<string>, v: string,
                             sums: string, image: string)
    requires forall i :: 0 <= i < |older| ==> Match(UbuntuVersion, older[i])
    requires Match(UbuntuVersion, v)
    requires '-' !in sums
    requires IsImageOf(Flat, v, image)
    ensures ResolveUbuntu(map[cwd + "/" + v := [sums, image]], server, cwd, "0", older + [v], Flat)
              == Ok(CreateDownloadLink(server, cwd + "/" + v, image))
  {
    var entries := older + [v];
    var dir := cwd + "/" + v;
    var names := [sums, image];
    var tree := map[dir := names];
    AllVersions(older, [v]);
    assert Versions(entries)[|Versions(entries)| - 1] == v;
    ResolveWithoutFallback(tree, server, cwd, "0", entries, Flat);
    assert dir + ImageSubdir(Flat) == dir;
    SelectSecondOfTwo(Flat, v, sums, image);
    FirstFileLink(server, dir, names, Flat, v, image);
  }

  /** A flavour (layout 1) whose newest version `next` lists only `beta`
      (anything but "release"): an image of the version `v` before it (such
      as `kubuntu-<v>-desktop-amd64.iso`) is taken from `<cwd>/<v>/release`. */
  lemma BetaFallbackScenario(server: string, cwd: string, older: seq<string>, v: string,
                             next: string, beta: string, image: string)
    requires forall i :: 0 <= i < |older| ==> Match(UbuntuVersion, older[i])
    requires Match(UbuntuVersion, v) && Match(UbuntuVersion, next)
    requires beta != "release"
    requires IsImageOf(Release, v, image)
    requires cwd + "/" + next != cwd + "/" + v + "/release"
    ensures var tree := map[cwd + "/" + next := [beta], cwd + "/" + v + "/release" := [image]];
            ResolveUbuntu(tree, server, cwd, "0", older + [v, next], Release)
              == Ok(CreateDownloadLink(server, cwd + "/" + v + "/release", image))
  {
    var entries := older + [v, next];
    var dir := cwd + "/" + v + "/release";
    var tree := map[cwd + "/" + next := [beta], dir := [image]];
    AllVersions(older, [v, next]);
    var vs := Versions(entries);
    assert vs[|vs| - 1] == next && vs[|vs| - 2] == v;
    assert tree[cwd + "/" + next] == [beta];
    ResolveWithFallback(tree, server, cwd, "0", entries, Release);
    SelectOnly(Release, v, image);
    FirstFileLink(server, dir, [image], Release, v, image);
  }

  /** `archlinux-<date>-<tail>` with a date token and a tail ending in ".iso"
      is an Arch image. */
  lemma ArchNameIsImage(date: string, tail: string)
    requires Match(ArchDate, date) && '-' !in date
    requires |tail| >= 4 && tail[|tail| - 4..] == ".iso"
    ensures IsArchImage(Hyphenate("archlinux", Hyphenate(date, tail)))
  {
    ArchNameTokens(date, tail);
  }

  /** An Arch listing holding a file without a hyphen (such as
      `sha256sums.txt`), then an image (such as the one `ArchNameIsImage`
      describes), then anything: the image is chosen. */
  lemma ArchFirstBuildScenario(server: string, cwd: string, sums: string, first: string,
                               later: seq<string>)
    requires '-' !in sums
    requires IsArchImage(first)
    ensures ResolveArch(server, cwd, [sums, first] + later) == Ok(CreateDownloadLink(server, cwd, first))
  {
    var entries := [sums, first] + later;
    assert entries[0] == sums && entries[1] == first;
    assert forall j :: 0 <= j < 1 ==> !IsArchImage(entries[j]);
    ArchPicksFirst(server, cwd, entries, 1);
  }

  /** `ubuntu-24.04.1-desktop-amd64.iso` is an image of version `24.04.1`. */
  lemma PointReleaseImage()
    ensures IsImageOf(Flat, "24.04.1", ImageName("ubuntu", "24.04.1", "desktop", "amd64.iso"))
  {
    assert "amd64.iso"[5..] == ".iso";
    ImageNameKept("ubuntu", "24.04.1", "desktop", "amd64.iso");
  }

  /** The listing `23.10`, `24.04`, `24.04.1` of plain Ubuntu, whose latest
      version directory holds `SHA256SUMS` and an image of `24.04.1` (such as
      the one `PointReleaseImage` names), resolves with option "0" to the link
      of that image in `/ubuntu/24.04.1`. */
  lemma PointReleaseExample(server: string, image: string)
    requires IsImageOf(Flat, "24.04.1", image)
    ensures ResolveUbuntu(map["/ubuntu" + "/" + "24.04.1" := ["SHA256SUMS", image]], server, "/ubuntu", "0",
                          ["23.10", "24.04"] + ["24.04.1"], Flat)
              == Ok(CreateDownloadLink(server, "/ubuntu" + "/" + "24.04.1", image))
  {
    var older := ["23.10", "24.04"];
    OlderReleases(older);
    UbuntuVersionExamples();
    ChecksumFile("SHA256SUMS");
    PointReleaseScenario(server, "/ubuntu", older, "24.04.1", "SHA256SUMS", image);
  }

  /** The checksum file of a release directory has no hyphen, so no layout keeps it.
      The literal is passed in as a parameter so that callers see only the
      two facts and not the text's characters, which keeps their proofs cheap. */
  lemma ChecksumFile(sums: string)
    requires sums == "SHA256SUMS"
    ensures '-' !in sums
    ensures KeepFile(Flat, "24.04.1", sums) == Ok(false)
  {
    assert forall k :: 0 <= k < |sums| ==> sums[k] != '-';
  }

  /** The releases before `24.04.1` are versions. As in `ChecksumFile`, the
      literal is a parameter so that callers see only this fact. */
  lemma OlderReleases(older: seq<string>)
    requires older == ["23.10", "24.04"]
    ensures forall i :: 0 <= i < |older| ==> Match(UbuntuVersion, older[i])
  {
    assert Match(UbuntuVersion, "23.10");
    UbuntuVersionExamples();
    assert older[0] == "23.10" && older[1] == "24.04";
  }
}
