/** The software catalog: one record per package and the fixed twelve-entry
    list the mock service layer serves. Records are never changed. */
module Catalog {
  import opened Seqs

  /** A catalog record. The display-only icon and size fields are not kept. */
  datatype Software = Software(
    id: int,
    name: string,
    description: string,
    category: string,
    websiteUrl: string,
    downloadUrl: string,
    fileName: string)

  /** The categories the records are drawn from. */
  const Categories: seq<string> :=
    ["Browser", "Media", "Development", "Utilities", "Communication", "Gaming"]

  /** No two records share an id. */
  predicate DistinctIds(s: seq<Software>) {
    forall i, j :: 0 <= i < j < |s| ==> s[i].id != s[j].id
  }

  /** Deleting records keeps the ids distinct. */
  lemma {:induction false} SubseqKeepsDistinctIds(a: seq<Software>, b: seq<Software>)
    requires IsSubseq(a, b) && DistinctIds(b)
    ensures DistinctIds(a)
    decreases |b|
  {
    if a != [] {
      assert DistinctIds(b[1..]) by {
        forall i, j | 0 <= i < j < |b[1..]| ensures b[1..][i].id != b[1..][j].id {
          assert b[1..][i] == b[i + 1] && b[1..][j] == b[j + 1];
        }
      }
      if a[0] == b[0] && IsSubseq(a[1..], b[1..]) {
        SubseqKeepsDistinctIds(a[1..], b[1..]);
        SubseqMembers(a[1..], b[1..]);
        forall i, j | 0 <= i < j < |a| ensures a[i].id != a[j].id {
          assert a[j] == a[1..][j - 1];
          if i > 0 {
            assert a[i] == a[1..][i - 1];
          } else {
            assert a[j] in b[1..];
            var k :| 0 <= k < |b[1..]| && b[1..][k] == a[j];
            assert b[1..][k] == b[k + 1];
          }
        }
      } else {
        SubseqKeepsDistinctIds(a, b[1..]);
      }
    }
  }

  /** Some record of `s` carries `id`. */
  predicate HasId(s: seq<Software>, id: int) {
    exists i :: 0 <= i < |s| && s[i].id == id
  }

  /** The static catalog, in insertion order. */
  const SoftwareData: seq<Software> := [
      Software(1, "Google Chrome",
               "Fast, secure web browser built by Google",
               "Browser",
               "https://www.google.com/chrome/",
               "https://www.google.com/chrome/",
               "ChromeSetup.exe"),
      Software(2, "Mozilla Firefox",
               "Free and open-source web browser",
               "Browser",
               "https://www.mozilla.org/firefox/",
               "https://www.mozilla.org/firefox/download/",
               "Firefox-Setup.exe"),
      Software(3, "Visual Studio Code",
               "Code editor redefined and optimized for building web apps",
               "Development",
               "https://code.visualstudio.com/",
               "https://code.visualstudio.com/Download",
               "VSCodeUserSetup.exe"),
      Software(4, "Git",
               "Distributed version control system",
               "Development",
               "https://git-scm.com/",
               "https://git-scm.com/downloads",
               "Git-Setup.exe"),
      Software(5, "Node.js",
               "JavaScript runtime built on Chrome's V8 JavaScript engine",
               "Development",
               "https://nodejs.org/",
               "https://nodejs.org/en/download/",
               "node-setup.msi"),
      Software(6, "7-Zip",
               "Free and open-source file archiver",
               "Utilities",
               "https://www.7-zip.org/",
               "https://www.7-zip.org/download.html",
               "7z-setup.exe"),
      Software(7, "VLC Media Player",
               "Free and open-source cross-platform multimedia player",
               "Media",
               "https://www.videolan.org/vlc/",
               "https://www.videolan.org/vlc/download-windows.html",
               "vlc-setup.exe"),
      Software(8, "Discord",
               "Voice, video, and text communication platform",
               "Communication",
               "https://discord.com/",
               "https://discord.com/download",
               "DiscordSetup.exe"),
      Software(9, "Spotify",
               "Digital music streaming service",
               "Media",
               "https://www.spotify.com/",
               "https://www.spotify.com/download/",
               "SpotifySetup.exe"),
      Software(10, "Zoom",
               "Video conferencing and online meeting platform",
               "Communication",
               "https://zoom.us/",
               "https://zoom.us/download",
               "ZoomInstaller.exe"),
      Software(11, "Steam",
               "Digital distribution platform for PC gaming",
               "Gaming",
               "https://store.steampowered.com/",
               "https://store.steampowered.com/about/",
               "SteamSetup.exe"),
      Software(12, "Epic Games Launcher",
               "Digital video game storefront and launcher",
               "Gaming",
               "https://www.epicgames.com/store/",
               "https://www.epicgames.com/store/download",
               "EpicInstaller.msi")
    ]

  /** The catalog holds ids 1 to 12, in order. */
  lemma CatalogNumbered()
    ensures |SoftwareData| == 12
    ensures forall i :: 0 <= i < |SoftwareData| ==> SoftwareData[i].id == i + 1
  {
  }

  /** Hence the ids are distinct and are exactly 1 to 12; moreover every
      record's category is one of the six categories. */
  lemma CatalogShape()
    ensures DistinctIds(SoftwareData)
    ensures forall i :: 0 <= i < |SoftwareData| ==> SoftwareData[i].category in Categories
    ensures forall id :: HasId(SoftwareData, id) <==> 1 <= id <= 12
  {
    CatalogNumbered();
    forall id | 1 <= id <= 12 ensures HasId(SoftwareData, id) {
      assert SoftwareData[id - 1].id == id;
    }
  }
}
