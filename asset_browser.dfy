/** `AssetBrowserPanel`: the editor's file browser over the asset directory.
    The filesystem, the meta-file GUIDs and the directory hash are outside the
    model: a directory listing arrives as a list of `AssetInfo` values with
    their GUIDs already chosen, and existence checks arrive as flags. */
module AssetBrowsers {
  import opened PanelManagers
  import opened Wrappers

  datatype AssetType = All | Textures | Models | Shaders | Audio | Fonts

  /** `GUID_128`: two 64-bit halves. */
  datatype Guid = Guid(high: nat, low: nat)

  const NO_GUID := Guid(0, 0)
  const ROOT_ASSET_DIRECTORY := "Resources"
  const ASSET_BROWSER_NAME := "Asset Browser"
  const META_EXTENSION := ".meta"

  /** An entry of the listing: its path, file name, extension (with the dot),
      GUID and whether it is a directory. */
  datatype AssetInfo = AssetInfo(filePath: string, fileName: string, extension: string, guid: Guid, isDirectory: bool)

  // Extensions and case

  /** `::tolower` in the C locale: only 'A'..'Z' change. */
  function LowerChar(c: char): (r: char)
    ensures 'A' <= c <= 'Z' ==> r as int == c as int + 32
    ensures !('A' <= c <= 'Z') ==> r == c
    ensures !('A' <= r <= 'Z')
  {
    if 'A' <= c <= 'Z' then (c as int + 32) as char else c
  }

  function ToLower(s: string): (r: string)
    ensures |r| == |s|
    ensures forall i :: 0 <= i < |s| ==> r[i] == LowerChar(s[i])
  {
    if s == [] then [] else [LowerChar(s[0])] + ToLower(s[1..])
  }

  /** Lower-casing twice is lower-casing once. */
  lemma ToLowerIdempotent(s: string)
    ensures ToLower(ToLower(s)) == ToLower(s)
  {
    var once := ToLower(s);
    assert forall i :: 0 <= i < |once| ==> LowerChar(once[i]) == once[i];
  }

  const TEXTURE_EXTENSIONS: set<string> := {".png", ".jpg", ".jpeg", ".bmp", ".tga"}
  const MODEL_EXTENSIONS: set<string> := {".obj", ".fbx", ".dae", ".3ds"}
  const SHADER_EXTENSIONS: set<string> := {".vert", ".frag", ".glsl", ".hlsl"}
  const AUDIO_EXTENSIONS: set<string> := {".wav", ".mp3", ".ogg"}
  const FONT_EXTENSIONS: set<string> := {".ttf", ".otf"}

  /** `validExtensions` in `IsValidAssetFile`: eighteen extensions. */
  const VALID_EXTENSIONS: set<string> := {
    ".png", ".jpg", ".jpeg", ".bmp", ".tga",
    ".obj", ".fbx", ".dae", ".3ds",
    ".vert", ".frag", ".glsl", ".hlsl",
    ".wav", ".mp3", ".ogg",
    ".ttf", ".otf" }

  function GetAssetTypeFromExtension(extension: string): (t: AssetType)
    ensures t == Textures <==> ToLower(extension) in TEXTURE_EXTENSIONS
    ensures t == Models <==> ToLower(extension) in MODEL_EXTENSIONS
    ensures t == Shaders <==> ToLower(extension) in SHADER_EXTENSIONS
    ensures t == Audio <==> ToLower(extension) in AUDIO_EXTENSIONS
    ensures t == Fonts <==> ToLower(extension) in FONT_EXTENSIONS
  {
    var lowerExt := ToLower(extension);
    if lowerExt in TEXTURE_EXTENSIONS then Textures
    else if lowerExt in MODEL_EXTENSIONS then Models
    else if lowerExt in SHADER_EXTENSIONS then Shaders
    else if lowerExt in AUDIO_EXTENSIONS then Audio
    else if lowerExt in FONT_EXTENSIONS then Fonts
    else All
  }

  function IsValidAssetFile(extension: string): (b: bool)
    ensures b <==> ToLower(extension) in VALID_EXTENSIONS
  {
    ToLower(extension) in VALID_EXTENSIONS
  }

  /** The two classifications agree: an extension is valid exactly when it
      has a type other than All; and neither depends on letter case. */
  lemma ValidIffTyped(extension: string)
    ensures IsValidAssetFile(extension) <==> GetAssetTypeFromExtension(extension) != All
    ensures GetAssetTypeFromExtension(ToLower(extension)) == GetAssetTypeFromExtension(extension)
    ensures IsValidAssetFile(ToLower(extension)) == IsValidAssetFile(extension)
  {
    ToLowerIdempotent(extension);
  }

  /** A mixed-case extension is recognised. */
  lemma UpperCaseTexture()
    ensures GetAssetTypeFromExtension(".PNG") == Textures
    ensures !IsValidAssetFile(".meta")
  {
    assert ToLower(".PNG") == ".png";
    assert ToLower(".meta") == ".meta";
  }

  // Search and type filter

  /** `needle` occurs in `haystack` starting at `i`. */
  predicate OccursAt(haystack: string, needle: string, i: int)
  {
    0 <= i <= |haystack| - |needle| && haystack[i..i + |needle|] == needle
  }

  /** `haystack.find(needle) != npos`. */
  predicate Contains(haystack: string, needle: string)
  {
    exists i :: 0 <= i <= |haystack| - |needle| && OccursAt(haystack, needle, i)
  }

  /** The search query must occur in the file name, ignoring case; the type
      filter applies to files only, and only when a type is chosen. */
  function PassesFilter(asset: AssetInfo, searchQuery: string, selectedAssetType: AssetType): (b: bool)
    ensures b <==>
      && (searchQuery == [] || Contains(ToLower(asset.fileName), ToLower(searchQuery)))
      && (selectedAssetType == All || asset.isDirectory || GetAssetTypeFromExtension(asset.extension) == selectedAssetType)
  {
    if searchQuery != [] && !Contains(ToLower(asset.fileName), ToLower(searchQuery)) then false
    else if selectedAssetType != All && !asset.isDirectory && GetAssetTypeFromExtension(asset.extension) != selectedAssetType then false
    else true
  }

  /** With no query and no type every asset passes; directories ignore the
      type; and the empty query is found in every name anyway. */
  lemma FilterDefaults(asset: AssetInfo, t: AssetType)
    ensures PassesFilter(asset, "", All)
    ensures asset.isDirectory ==> PassesFilter(asset, "", t)
    ensures Contains(ToLower(asset.fileName), "")
  {
    assert OccursAt(ToLower(asset.fileName), "", 0);
  }

  // Listing order

  /** `std::string::operator<`: lexicographic by character code. */
  predicate LexLess(a: string, b: string)
  {
    if a == [] then b != []
    else if b == [] then false
    else if a[0] != b[0] then a[0] < b[0]
    else LexLess(a[1..], b[1..])
  }

  lemma {:induction false} LexLessIrreflexive(a: string)
    ensures !LexLess(a, a)
  {
    if a != [] {
      LexLessIrreflexive(a[1..]);
    }
  }

  lemma {:induction false} LexLessTransitive(a: string, b: string, c: string)
    requires LexLess(a, b) && LexLess(b, c)
    ensures LexLess(a, c)
  {
    if a != [] && b != [] && c != [] && a[0] == b[0] && b[0] == c[0] {
      LexLessTransitive(a[1..], b[1..], c[1..]);
    }
  }

  lemma {:induction false} LexLessTotal(a: string, b: string)
    requires a != b
    ensures LexLess(a, b) || LexLess(b, a)
  {
    if a != [] && b != [] && a[0] == b[0] {
      assert a == [a[0]] + a[1..] && b == [b[0]] + b[1..];
      LexLessTotal(a[1..], b[1..]);
    }
  }

  /** The refresh comparator: directories before files, then by file name. */
  predicate ListedBefore(a: AssetInfo, b: AssetInfo)
  {
    if a.isDirectory != b.isDirectory then a.isDirectory else LexLess(a.fileName, b.fileName)
  }

  /** The comparator is a strict weak order: `b` not before `a` and `c` not
      before `b` mean `c` is not before `a`. */
  lemma NotBeforeTransitive(a: AssetInfo, b: AssetInfo, c: AssetInfo)
    requires !ListedBefore(b, a) && !ListedBefore(c, b)
    ensures !ListedBefore(c, a)
  {
    if ListedBefore(c, a) && a.isDirectory == b.isDirectory && b.isDirectory == c.isDirectory {
      if b.fileName == c.fileName {
      } else if a.fileName == b.fileName {
      } else {
        LexLessTotal(a.fileName, b.fileName);
        LexLessTotal(b.fileName, c.fileName);
        LexLessTransitive(c.fileName, a.fileName, b.fileName);
      }
    }
  }

  lemma ListedBeforeAsymmetric(a: AssetInfo, b: AssetInfo)
    ensures !(ListedBefore(a, b) && ListedBefore(b, a))
  {
    if ListedBefore(a, b) && ListedBefore(b, a) && a.isDirectory == b.isDirectory {
      LexLessTransitive(a.fileName, b.fileName, a.fileName);
      LexLessIrreflexive(a.fileName);
    }
  }

  ghost predicate SortedListing(s: seq<AssetInfo>)
  {
    forall i, j :: 0 <= i < j < |s| ==> !ListedBefore(s[j], s[i])
  }

  /** `x` placed before the first element it does not follow. */
  function InsertListed(x: AssetInfo, s: seq<AssetInfo>): (r: seq<AssetInfo>)
    ensures multiset(r) == multiset(s) + multiset{x}
    ensures |r| == |s| + 1
  {
    if s == [] || !ListedBefore(s[0], x) then [x] + s
    else
      assert s == [s[0]] + s[1..];
      [s[0]] + InsertListed(x, s[1..])
  }

  lemma {:induction false} InsertListedSorted(x: AssetInfo, s: seq<AssetInfo>)
    requires SortedListing(s)
    ensures SortedListing(InsertListed(x, s))
  {
    var r := InsertListed(x, s);
    if s == [] {
    } else if !ListedBefore(s[0], x) {
      forall j | 1 <= j < |r| ensures !ListedBefore(r[j], x) {
        if j > 1 { NotBeforeTransitive(x, s[0], r[j]); }
      }
    } else {
      var rest := s[1..];
      assert SortedListing(rest) by {
        forall i, j | 0 <= i < j < |rest| ensures !ListedBefore(rest[j], rest[i]) {
          assert rest[i] == s[i + 1] && rest[j] == s[j + 1];
        }
      }
      InsertListedSorted(x, rest);
      var tail := InsertListed(x, rest);
      assert r == [s[0]] + tail;
      forall j | 0 <= j < |tail| ensures !ListedBefore(tail[j], s[0]) {
        assert tail[j] in multiset(tail);
        if tail[j] == x {
          ListedBeforeAsymmetric(x, s[0]);
        } else {
          assert tail[j] in multiset(rest);
          var k :| 0 <= k < |rest| && rest[k] == tail[j];
          assert s[k + 1] == rest[k];
        }
      }
    }
  }

  /** `std::sort` with the refresh comparator, as an insertion sort. */
  function SortListing(s: seq<AssetInfo>): (r: seq<AssetInfo>)
    ensures multiset(r) == multiset(s)
  {
    if s == [] then []
    else
      assert s == [s[0]] + s[1..];
      InsertListed(s[0], SortListing(s[1..]))
  }

  /** The sorted listing is ordered: every directory comes before every file,
      and names ascend within each kind. */
  lemma {:induction false} SortListingSorted(s: seq<AssetInfo>)
    ensures SortedListing(SortListing(s))
    ensures forall i, j :: 0 <= i < j < |SortListing(s)| && !SortListing(s)[i].isDirectory ==> !SortListing(s)[j].isDirectory
  {
    if s != [] {
      SortListingSorted(s[1..]);
      InsertListedSorted(s[0], SortListing(s[1..]));
    }
    var r := SortListing(s);
    forall i, j | 0 <= i < j < |r| && !r[i].isDirectory ensures !r[j].isDirectory {
      assert !ListedBefore(r[j], r[i]);
    }
  }

  // Refresh filter and breadcrumbs

  /** Refresh keeps directories, and files that are neither `.meta` files nor
      of an unknown extension. */
  predicate KeptByRefresh(entry: AssetInfo)
  {
    entry.isDirectory || (entry.extension != META_EXTENSION && IsValidAssetFile(entry.extension))
  }

  function KeptEntries(listing: seq<AssetInfo>): (r: seq<AssetInfo>)
    ensures |r| <= |listing|
    ensures forall i :: 0 <= i < |r| ==> KeptByRefresh(r[i])
    ensures forall e :: e in listing && KeptByRefresh(e) ==> e in r
    ensures forall e :: e in r ==> e in listing
  {
    if listing == [] then []
    else if KeptByRefresh(listing[0]) then [listing[0]] + KeptEntries(listing[1..])
    else KeptEntries(listing[1..])
  }

  /** What survives refresh: only directories and files of a known type. */
  lemma KeptAreTyped(listing: seq<AssetInfo>)
    ensures forall e :: e in KeptEntries(listing) ==> e.isDirectory || GetAssetTypeFromExtension(e.extension) != All
  {
    forall e | e in KeptEntries(listing) ensures e.isDirectory || GetAssetTypeFromExtension(e.extension) != All {
      ValidIffTyped(e.extension);
    }
  }

  /** A path split at each '/', `current` holding the part read so far. */
  function SplitParts(s: string, current: string): (parts: seq<string>)
    ensures parts != []
    ensures forall i :: 0 <= i < |parts| ==> '/' !in parts[i] || (i == 0 && '/' in current)
  {
    if s == [] then [current]
    else if s[0] == '/' then [current] + SplitParts(s[1..], "")
    else SplitParts(s[1..], current + [s[0]])
  }

  /** The components of a relative path; "." has none. */
  function Breadcrumbs(relativePath: string): (crumbs: seq<string>)
    ensures forall i :: 0 <= i < |crumbs| ==> '/' !in crumbs[i]
  {
    if relativePath == "." then [] else SplitParts(relativePath, "")
  }

  /** The directory reached through breadcrumbs: each prefixed with '/'. */
  function JoinCrumbs(crumbs: seq<string>): string
  {
    if crumbs == [] then "" else "/" + crumbs[0] + JoinCrumbs(crumbs[1..])
  }

  lemma {:induction false} JoinSplitParts(s: string, current: string)
    ensures JoinCrumbs(SplitParts(s, current)) == "/" + current + s
    decreases |s|
  {
    if s == [] {
      assert JoinCrumbs([current]) == "/" + current + JoinCrumbs([]);
    } else if s[0] == '/' {
      JoinSplitParts(s[1..], "");
      assert s == "/" + s[1..];
      var parts := [current] + SplitParts(s[1..], "");
      assert parts[1..] == SplitParts(s[1..], "");
    } else {
      JoinSplitParts(s[1..], current + [s[0]]);
      assert "/" + (current + [s[0]]) + s[1..] == "/" + current + s;
    }
  }

  /** Following every breadcrumb from the root leads back to the directory
      they were made from. */
  lemma BreadcrumbsRoundTrip(root: string, relativePath: string)
    requires relativePath != "."
    ensures root + JoinCrumbs(Breadcrumbs(relativePath)) == root + "/" + relativePath
  {
    JoinSplitParts(relativePath, "");
  }

  lemma {:induction false} JoinCrumbsAppend(crumbs: seq<string>, last: string)
    ensures JoinCrumbs(crumbs + [last]) == JoinCrumbs(crumbs) + "/" + last
  {
    if crumbs != [] {
      assert (crumbs + [last])[1..] == crumbs[1..] + [last];
      JoinCrumbsAppend(crumbs[1..], last);
    }
  }

  /** Selection state after `SelectAsset`. */
  function SelectedAfter(selected: set<Guid>, guid: Guid, multiSelect: bool): set<Guid>
  {
    var base := if multiSelect then selected else {};
    if guid in base then base - {guid} else base + {guid}
  }

  class AssetBrowserPanel {
    const panel: EditorPanel
    const rootAssetDirectory: string
    var currentDirectory: string
    var pathBreadcrumbs: seq<string>
    var searchQuery: string
    var selectedAssetType: AssetType
    var currentAssets: seq<AssetInfo>
    var selectedAssets: set<Guid>
    var lastSelectedAsset: Guid
    var isRefreshPending: bool

    constructor ()
      ensures fresh(panel) && panel.name == ASSET_BROWSER_NAME && panel.isOpen
      ensures currentDirectory == ROOT_ASSET_DIRECTORY && rootAssetDirectory == ROOT_ASSET_DIRECTORY
      ensures selectedAssetType == All && isRefreshPending
      ensures lastSelectedAsset == NO_GUID && selectedAssets == {}
      ensures currentAssets == [] && pathBreadcrumbs == [] && searchQuery == ""
    {
      panel := new EditorPanel(ASSET_BROWSER_NAME, true);
      currentDirectory := ROOT_ASSET_DIRECTORY;
      rootAssetDirectory := ROOT_ASSET_DIRECTORY;
      selectedAssetType := All;
      isRefreshPending := true;
      lastSelectedAsset := NO_GUID;
      selectedAssets := {};
      currentAssets := [];
      pathBreadcrumbs := [];
      searchQuery := "";
    }

    /** Without multi-select the selection becomes exactly `guid`; with it,
        `guid` is toggled. The last selected asset follows insertions only. */
    method SelectAsset(guid: Guid, multiSelect: bool)
      modifies this
      ensures selectedAssets == SelectedAfter(old(selectedAssets), guid, multiSelect)
      ensures !multiSelect ==> selectedAssets == {guid} && lastSelectedAsset == guid
      ensures multiSelect && guid in old(selectedAssets) ==>
        selectedAssets == old(selectedAssets) - {guid} && lastSelectedAsset == old(lastSelectedAsset)
      ensures multiSelect && guid !in old(selectedAssets) ==>
        selectedAssets == old(selectedAssets) + {guid} && lastSelectedAsset == guid
      ensures currentDirectory == old(currentDirectory) && currentAssets == old(currentAssets)
      ensures isRefreshPending == old(isRefreshPending) && pathBreadcrumbs == old(pathBreadcrumbs)
      ensures searchQuery == old(searchQuery) && selectedAssetType == old(selectedAssetType)
    {
      if !multiSelect {
        selectedAssets := {};
      }
      if guid in selectedAssets {
        selectedAssets := selectedAssets - {guid};
      } else {
        selectedAssets := selectedAssets + {guid};
        lastSelectedAsset := guid;
      }
    }

    method ClearSelection()
      modifies this
      ensures selectedAssets == {} && lastSelectedAsset == NO_GUID
      ensures currentDirectory == old(currentDirectory) && currentAssets == old(currentAssets)
      ensures isRefreshPending == old(isRefreshPending) && pathBreadcrumbs == old(pathBreadcrumbs)
      ensures searchQuery == old(searchQuery) && selectedAssetType == old(selectedAssetType)
    {
      selectedAssets := {};
      lastSelectedAsset := NO_GUID;
    }

    function IsAssetSelected(guid: Guid): (b: bool)
      reads this
      ensures b <==> guid in selectedAssets
    {
      guid in selectedAssets
    }

    /** Rebuilds the listing of the current directory, falling back to the
        root when the directory is gone. `listing` is what the directory holds,
        and `relativePath` the current directory relative to the root.
        `throwsAt` is the entry at which the directory iterator or the meta
        file manager throws, if any: the handler then leaves the entries kept
        so far, unsorted, and the breadcrumbs are rebuilt all the same. */
    method RefreshAssets(directoryExists: bool, listing: seq<AssetInfo>, throwsAt: Option<nat>, relativePath: string)
      modifies this
      ensures currentDirectory == if directoryExists then old(currentDirectory) else rootAssetDirectory
      ensures throwsAt.Some? && throwsAt.value < |listing| ==>
        currentAssets == KeptEntries(listing[..throwsAt.value])
      ensures throwsAt.None? || throwsAt.value >= |listing| ==>
        && currentAssets == SortListing(KeptEntries(listing))
        && SortedListing(currentAssets)
        && multiset(currentAssets) == multiset(KeptEntries(listing))
      ensures pathBreadcrumbs == Breadcrumbs(relativePath)
      ensures selectedAssets == old(selectedAssets) && lastSelectedAsset == old(lastSelectedAsset)
      ensures isRefreshPending == old(isRefreshPending)
      ensures searchQuery == old(searchQuery) && selectedAssetType == old(selectedAssetType)
    {
      if !directoryExists {
        currentDirectory := rootAssetDirectory;
      }
      if throwsAt.Some? && throwsAt.value < |listing| {
        currentAssets := CollectAssets(listing[..throwsAt.value]);
      } else {
        var assets := CollectAssets(listing);
        currentAssets := SortListing(assets);
        SortListingSorted(assets);
      }
      pathBreadcrumbs := Breadcrumbs(relativePath);
    }

    /** Enters `directory` when it exists, clearing the selection and asking
        for a refresh. */
    method NavigateToDirectory(directory: string, isExistingDirectory: bool)
      modifies this
      ensures isExistingDirectory ==>
        currentDirectory == directory && selectedAssets == {} && lastSelectedAsset == NO_GUID && isRefreshPending
      ensures !isExistingDirectory ==>
        && currentDirectory == old(currentDirectory) && selectedAssets == old(selectedAssets)
        && lastSelectedAsset == old(lastSelectedAsset) && isRefreshPending == old(isRefreshPending)
      ensures currentAssets == old(currentAssets) && pathBreadcrumbs == old(pathBreadcrumbs)
      ensures searchQuery == old(searchQuery) && selectedAssetType == old(selectedAssetType)
    {
      if isExistingDirectory {
        currentDirectory := directory;
        ClearSelection();
        isRefreshPending := true;
      }
    }

    /** The directory breadcrumb `i` leads to: the root followed by the first
        `i + 1` crumbs, each after a '/'. */
    method BreadcrumbTarget(i: nat) returns (targetPath: string)
      requires i < |pathBreadcrumbs|
      ensures targetPath == rootAssetDirectory + JoinCrumbs(pathBreadcrumbs[..i + 1])
    {
      targetPath := rootAssetDirectory;
      var j := 0;
      while j <= i
        invariant 0 <= j <= i + 1
        invariant targetPath == rootAssetDirectory + JoinCrumbs(pathBreadcrumbs[..j])
      {
        JoinCrumbsAppend(pathBreadcrumbs[..j], pathBreadcrumbs[j]);
        assert pathBreadcrumbs[..j + 1] == pathBreadcrumbs[..j] + [pathBreadcrumbs[j]];
        targetPath := targetPath + "/" + pathBreadcrumbs[j];
        j := j + 1;
      }
    }

    /** The listing column shown: the current assets that pass the filter,
        in listing order. */
    function VisibleAssets(): (r: seq<AssetInfo>)
      reads this
      ensures forall a :: a in r <==> a in currentAssets && PassesFilter(a, searchQuery, selectedAssetType)
    {
      Visible(currentAssets, searchQuery, selectedAssetType)
    }
  }

  /** The refresh loop: walks the listing, skipping `.meta` files and files
      of unknown extension, and keeps the rest in listing order. */
  method CollectAssets(listing: seq<AssetInfo>) returns (assets: seq<AssetInfo>)
    ensures assets == KeptEntries(listing)
  {
    assets := [];
    var i := 0;
    while i < |listing|
      invariant 0 <= i <= |listing|
      invariant assets + KeptEntries(listing[i..]) == KeptEntries(listing)
    {
      KeptStep(listing, i);
      var entry := listing[i];
      ghost var rest := KeptEntries(listing[i + 1..]);
      i := i + 1;
      if !entry.isDirectory {
        if entry.extension == META_EXTENSION {
          assert !KeptByRefresh(entry);
          continue;
        }
        if !IsValidAssetFile(entry.extension) {
          assert !KeptByRefresh(entry);
          continue;
        }
      }
      assert KeptByRefresh(entry);
      assert (assets + [entry]) + rest == assets + ([entry] + rest);
      assets := assets + [entry];
    }
  }

  /** The entries kept from position `i` on: entry `i` if refresh keeps it,
      then those kept after it. */
  lemma KeptStep(listing: seq<AssetInfo>, i: nat)
    requires i < |listing|
    ensures KeptEntries(listing[i..]) ==
            (if KeptByRefresh(listing[i]) then [listing[i]] else []) + KeptEntries(listing[i + 1..])
  {
    assert listing[i..][1..] == listing[i + 1..];
  }

  function Visible(assets: seq<AssetInfo>, searchQuery: string, t: AssetType): (r: seq<AssetInfo>)
    ensures forall a :: a in r <==> a in assets && PassesFilter(a, searchQuery, t)
  {
    if assets == [] then []
    else if PassesFilter(assets[0], searchQuery, t) then [assets[0]] + Visible(assets[1..], searchQuery, t)
    else Visible(assets[1..], searchQuery, t)
  }
}
