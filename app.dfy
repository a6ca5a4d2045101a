/** The state rules of the main window: which sidebar panel a tab opens, the file
    server url of a path, the image list and its active entry, reordering volumes,
    and closing every volume. */
module App {
  import opened Common
  import opened JsString
  import opened Niivue

  /** What the sidebar shows, and which kind of item is active. */
  const NoneType: int := 0
  const VolumeType: int := 1
  const MeshType: int := 2
  const MeshLayerType: int := 3
  const SettingsType: int := 4

  // ---------------------------------------------------------------------------
  // Tabs and sidebar.

  /** The `switch` of `handleChange`: tab 1 shows volumes, tab 2 meshes, tab 3 the
      settings, any other tab nothing. */
  function TabContent(newValue: int): (c: int)
    ensures c == VolumeType <==> newValue == 1
    ensures c == MeshType <==> newValue == 2
    ensures c == SettingsType <==> newValue == 3
    ensures c == NoneType <==> newValue !in {1, 2, 3}
  {
    if newValue == 1 then VolumeType
    else if newValue == 2 then MeshType
    else if newValue == 3 then SettingsType
    else NoneType
  }

  /** `toggleSidebarContent`: asking again for the panel already shown closes it. */
  function Toggle(current: int, content: int): (r: int)
    ensures r == NoneType <==> current == content || content == NoneType
    ensures r != NoneType ==> r == content
  {
    if current == content then NoneType else content
  }

  /** Toggling the same panel twice closes it if it was not shown and reopens it if
      it was. */
  lemma ToggleTwice(current: int, content: int)
    ensures Toggle(Toggle(current, content), content) == if current == content then content else NoneType
  {
  }

  // ---------------------------------------------------------------------------
  // The file server url.

  /** The connection details `getCommsInfo` hands back. */
  datatype CommsInfo = CommsInfo(host: string, fileServerPort: nat, route: string, queryKey: string)

  /** `makeNiivueUrl`: `http://host:port/route?queryKey=path`, the path not encoded. */
  function MakeNiivueUrl(path: string, info: CommsInfo): string
  {
    "http://" + info.host + ":" + NatToString(info.fileServerPort) + "/" + info.route + "?" + info.queryKey + "=" + path
  }

  /** The first index of `c` in `s`. */
  function FirstIndexOf(s: string, c: char): (r: Option<nat>)
    ensures r.None? <==> c !in s
    ensures r.Some? ==> r.value < |s| && s[r.value] == c && c !in s[..r.value]
  {
    if |s| == 0 then None
    else if s[0] == c then Some(0)
    else
      var rest := FirstIndexOf(s[1..], c);
      if rest.None? then None
      else
        assert s[..rest.value + 1] == [s[0]] + s[1..][..rest.value];
        Some(rest.value + 1)
  }

  /** The first `c` of `a + [c] + b` is the one after `a` when `a` has none. */
  lemma {:induction false} FirstIndexAfter(a: string, c: char, b: string)
    requires c !in a
    ensures FirstIndexOf(a + [c] + b, c) == Some(|a|)
    decreases |a|
  {
    if |a| == 0 {
      assert a + [c] + b == [c] + b;
    } else {
      assert (a + [c] + b)[1..] == a[1..] + [c] + b;
      FirstIndexAfter(a[1..], c, b);
    }
  }

  /** The text before the first `c` and the text after it. */
  function SplitAtFirst(s: string, c: char): (r: Option<(string, string)>)
    ensures r.None? <==> c !in s
    ensures r.Some? ==> c !in r.value.0 && s == r.value.0 + [c] + r.value.1
  {
    match FirstIndexOf(s, c)
    case None => None
    case Some(i) =>
      assert s == s[..i] + [c] + s[i + 1..];
      Some((s[..i], s[i + 1..]))
  }

  /** Splitting `a + [c] + b` at its first `c` gives back `a` and `b` when `a` has no `c`. */
  lemma SplitAtFirstJoined(a: string, c: char, b: string)
    requires c !in a
    ensures SplitAtFirst(a + [c] + b, c) == Some((a, b))
  {
    var s := a + [c] + b;
    FirstIndexAfter(a, c, b);
    assert s[..|a|] == a && s[|a| + 1..] == b;
  }

  /** Where a url points: the path, and the connection details it was built from. */
  datatype Location = Location(path: string, info: CommsInfo)

  /** Reading a file server url back: the host up to the first ':', the decimal port
      up to the next '/', the route up to the first '?', the query key up to the
      first '=', and the rest is the path. */
  function ParseNiivueUrl(url: string): Option<Location>
  {
    if |url| < 7 || url[..7] != "http://" then None
    else
      match SplitAtFirst(url[7..], ':')
      case None => None
      case Some((host, afterHost)) =>
        match SplitAtFirst(afterHost, '/')
        case None => None
        case Some((port, afterPort)) =>
          if |port| == 0 || !AllDigits(port) then None
          else
            match SplitAtFirst(afterPort, '?')
            case None => None
            case Some((route, afterRoute)) =>
              match SplitAtFirst(afterRoute, '=')
              case None => None
              case Some((queryKey, path)) =>
                Some(Location(path, CommsInfo(host, ParseDecimal(port), route, queryKey)))
  }

  /** The decimal rendering of a port contains no '/'. */
  lemma NoSlashInDigits(s: string)
    requires AllDigits(s)
    ensures '/' !in s
  {
    forall i | 0 <= i < |s| ensures s[i] != '/' {
      assert '0' <= s[i];
    }
  }

  /** The url gives back its path and connection details whenever the host has no
      ':', the route no '?' and the query key no '='; the path may hold anything. */
  lemma ParseMakeNiivueUrl(path: string, info: CommsInfo)
    requires ':' !in info.host && '?' !in info.route && '=' !in info.queryKey
    ensures ParseNiivueUrl(MakeNiivueUrl(path, info)) == Some(Location(path, info))
  {
    var port := NatToString(info.fileServerPort);
    var afterRoute := info.queryKey + "=" + path;
    var afterPort := info.route + "?" + afterRoute;
    var afterHost := port + "/" + afterPort;
    var url := MakeNiivueUrl(path, info);
    assert url[..7] == "http://" && url[7..] == info.host + [':'] + afterHost;
    SplitAtFirstJoined(info.host, ':', afterHost);
    NoSlashInDigits(port);
    SplitAtFirstJoined(port, '/', afterPort);
    SplitAtFirstJoined(info.route, '?', afterRoute);
    SplitAtFirstJoined(info.queryKey, '=', path);
    ParseNatToString(info.fileServerPort);
  }

  /** Under the same conditions, different files or servers give different urls. */
  lemma NiivueUrlInjective(p1: string, i1: CommsInfo, p2: string, i2: CommsInfo)
    requires ':' !in i1.host && '?' !in i1.route && '=' !in i1.queryKey
    requires ':' !in i2.host && '?' !in i2.route && '=' !in i2.queryKey
    requires MakeNiivueUrl(p1, i1) == MakeNiivueUrl(p2, i2)
    ensures p1 == p2 && i1 == i2
  {
    ParseMakeNiivueUrl(p1, i1);
    ParseMakeNiivueUrl(p2, i2);
  }

  // ---------------------------------------------------------------------------
  // The image list.

  /** An entry of the image list the sidebar renders. */
  datatype ImageEntry = ImageEntry(url: string, name: string, index: int, id: string, color: string, active: bool)

  /** `getImageList`: one entry per volume, in order; only the entry at the active
      index is marked active. */
  function ImageList(vols: seq<Volume>, activeImage: int): (entries: seq<ImageEntry>)
    ensures |entries| == |vols|
    ensures forall i :: 0 <= i < |vols| ==>
              entries[i].index == i && entries[i].id == vols[i].id && entries[i].name == vols[i].name
              && (entries[i].active <==> i == activeImage)
  {
    seq(|vols|, i requires 0 <= i < |vols| =>
      ImageEntry(vols[i].url, vols[i].name, i, vols[i].id, vols[i].colormap, i == activeImage))
  }

  /** The entries after `toggleActive(name, value)`: the named ones get `value`,
      every other one is switched off. */
  function Toggled(images: seq<ImageEntry>, name: string, value: bool): (r: seq<ImageEntry>)
    ensures |r| == |images|
  {
    seq(|images|, i requires 0 <= i < |images| =>
      images[i].(active := if images[i].name == name then value else false))
  }

  /** The last index of an entry with this name. */
  function LastIndexNamed(images: seq<ImageEntry>, name: string): (r: Option<nat>)
    ensures r.None? <==> forall i :: 0 <= i < |images| ==> images[i].name != name
    ensures r.Some? ==> r.value < |images| && images[r.value].name == name
                        && forall i :: r.value < i < |images| ==> images[i].name != name
  {
    if |images| == 0 then None
    else if images[|images| - 1].name == name then Some(|images| - 1)
    else LastIndexNamed(images[..|images| - 1], name)
  }

  /** After a toggle only entries with the toggled name can be active, and they all
      are when the value is true; the other fields of every entry are kept. */
  lemma ToggleIsExclusive(images: seq<ImageEntry>, name: string, value: bool)
    ensures var r := Toggled(images, name, value);
            forall i :: 0 <= i < |images| ==>
              (r[i].active <==> value && images[i].name == name) && r[i] == images[i].(active := r[i].active)
  {
  }

  /** With distinct names, switching an entry on leaves exactly that entry active. */
  lemma ToggleOnSelectsOne(images: seq<ImageEntry>, name: string, k: nat)
    requires forall i, j :: 0 <= i < j < |images| ==> images[i].name != images[j].name
    requires k < |images| && images[k].name == name
    ensures forall i :: 0 <= i < |images| ==> (Toggled(images, name, true)[i].active <==> i == k)
    ensures LastIndexNamed(images, name) == Some(k)
  {
  }

  // ---------------------------------------------------------------------------
  // Reordering.

  /** The active index after `moveImage(drag, hover)`, as written: the two positions swap roles. */
  function ActiveSwapped(active: int, drag: nat, hover: nat): int
  {
    if active == drag then hover else if active == hover then drag else active
  }

  /** The active index after `moveImage(drag, hover)`, following the active image to where the move
      put it. */
  function ActiveTracked(active: nat, drag: nat, hover: nat): nat
  {
    if active == drag then hover
    else if drag < active <= hover then active - 1
    else if hover <= active < drag then active + 1
    else active
  }

  /** The tracked index names the same image after the move. */
  lemma TrackedFollowsImage<T>(s: seq<T>, drag: nat, hover: nat, active: nat)
    requires drag < |s| && hover < |s| && active < |s|
    ensures ActiveTracked(active, drag, hover) < |s|
    ensures Move(s, drag, hover)[ActiveTracked(active, drag, hover)] == s[active]
  {
    MoveAt(s, drag, hover, ActiveTracked(active, drag, hover));
  }

  /** For a move to a neighbouring position the swap rule is the tracking rule. */
  lemma SwapRuleAdjacent(active: nat, drag: nat, hover: nat)
    requires drag <= hover + 1 && hover <= drag + 1
    ensures ActiveSwapped(active, drag, hover) == ActiveTracked(active, drag, hover)
  {
  }

  /** For a longer move it is not: `moveImage(0, 2)` on three images while the
      second is active makes the last image active, although the second image is
      now first. */
  lemma SwapRuleLosesActive<T>(s: seq<T>)
    requires |s| == 3 && s[1] != s[2]
    ensures ActiveSwapped(1, 0, 2) == 1 && Move(s, 0, 2)[1] == s[2]
    ensures ActiveTracked(1, 0, 2) == 0 && Move(s, 0, 2)[0] == s[1]
  {
    MoveAt(s, 0, 2, 1);
    MoveAt(s, 0, 2, 0);
  }

  /** `handleMoveUp`'s effect on the volumes: nothing at the top, else a swap with the
      volume above. */
  function MovedUp(vols: seq<Volume>, index: nat): seq<Volume>
    requires index < |vols|
  {
    if index == 0 then vols else Move(vols, index, index - 1)
  }

  /** `handleMoveDown`'s effect: nothing at the bottom, else a swap with the volume
      below. */
  function MovedDown(vols: seq<Volume>, index: nat): seq<Volume>
    requires index < |vols|
  {
    if index + 1 > |vols| - 1 then vols else Move(vols, index, index + 1)
  }

  /** Moving up exchanges a volume with the one above and leaves the rest in place. */
  lemma MovedUpSwaps(vols: seq<Volume>, index: nat)
    requires 0 < index < |vols|
    ensures var r := MovedUp(vols, index);
            |r| == |vols| && r[index - 1] == vols[index] && r[index] == vols[index - 1]
            && forall j :: 0 <= j < |vols| && j != index && j != index - 1 ==> r[j] == vols[j]
  {
    MoveAt(vols, index, index - 1, index - 1);
    MoveAt(vols, index, index - 1, index);
    forall j | 0 <= j < |vols| && j != index && j != index - 1 ensures MovedUp(vols, index)[j] == vols[j] {
      MoveAt(vols, index, index - 1, j);
    }
  }

  /** Moving a volume down and then up again restores the list. */
  lemma MoveDownThenUp(vols: seq<Volume>, index: nat)
    requires index + 1 < |vols|
    ensures MovedUp(MovedDown(vols, index), index + 1) == vols
  {
    MoveBack(vols, index, index + 1);
  }

  /** Moving the top volume up or the bottom volume down changes nothing. */
  lemma MoveAtEdges(vols: seq<Volume>)
    requires |vols| > 0
    ensures MovedUp(vols, 0) == vols && MovedDown(vols, |vols| - 1) == vols
  {
  }

  // ---------------------------------------------------------------------------
  // The window state.

  class Ui {
    var images: seq<ImageEntry>
    var meshes: seq<string>
    var layers: map<string, seq<string>>
    var activeImage: int
    var activeMesh: int
    var activeLayer: int
    var activeImageType: int
    var sidebarContent: int
    var activeTab: int
    var min: real
    var max: real
    var calMin: real
    var calMax: real
    var opacity: real
    var colorPickerOpen: bool
    var sceneSettingsOpen: bool

    /** The volume-related part of the state is as the window starts: no images,
        meshes or layers, nothing selected, and the display controls at their
        defaults. */
    predicate VolumesReset()
      reads this
    {
      SelectionReset() && ControlsReset()
    }

    predicate SelectionReset()
      reads this
    {
      && images == [] && meshes == [] && layers == map[]
      && activeImage == 0 && activeMesh == 0 && activeLayer == 0 && activeImageType == NoneType
    }

    predicate ControlsReset()
      reads this
    {
      && min == 0.0 && max == 0.0 && calMin == 0.0 && calMax == 0.0 && opacity == 1.0
      && !colorPickerOpen && !sceneSettingsOpen
    }

    /** The initial `useState` values. */
    constructor ()
      ensures VolumesReset() && sidebarContent == NoneType && activeTab == 0
    {
      images := [];
      meshes := [];
      layers := map[];
      activeImage := 0;
      activeMesh := 0;
      activeLayer := 0;
      activeImageType := NoneType;
      sidebarContent := NoneType;
      activeTab := 0;
      min := 0.0;
      max := 0.0;
      calMin := 0.0;
      calMax := 0.0;
      opacity := 1.0;
      colorPickerOpen := false;
      sceneSettingsOpen := false;
    }

    /** `handleChange`: select the tab and show its panel. */
    method HandleChange(newValue: int)
      modifies this`activeTab, this`sidebarContent
      ensures activeTab == newValue && sidebarContent == TabContent(newValue)
    {
      activeTab := newValue;
      sidebarContent := TabContent(newValue);
    }

    /** `handleClickTab`: clicking the selected tab deselects it and closes the panel;
        any other click changes nothing here. */
    method HandleClickTab(index: int)
      modifies this`activeTab, this`activeImageType, this`sidebarContent
      ensures old(activeTab) == index ==> activeTab == -1 && activeImageType == NoneType && sidebarContent == NoneType
      ensures old(activeTab) != index ==> activeTab == old(activeTab) && activeImageType == old(activeImageType)
                                          && sidebarContent == old(sidebarContent)
    {
      if index == activeTab {
        activeTab := -1;
        activeImageType := NoneType;
        sidebarContent := NoneType;
      }
    }

    /** `toggleSidebarContent`: the panel and the active type follow the toggle. */
    method ToggleSidebarContent(content: int)
      modifies this`sidebarContent, this`activeImageType
      ensures sidebarContent == Toggle(old(sidebarContent), content) && activeImageType == sidebarContent
    {
      if sidebarContent == content {
        sidebarContent := NoneType;
        activeImageType := NoneType;
      } else {
        sidebarContent := content;
        activeImageType := content;
      }
    }

    /** `toggleActive(name, value)`: the `map` over the entries; each match also makes
        its index the active one, so the last match wins. */
    method ToggleActive(name: string, value: bool)
      modifies this`images, this`activeImage, this`activeImageType
      ensures images == Toggled(old(images), name, value)
      ensures LastIndexNamed(old(images), name).None? ==> activeImage == old(activeImage) && activeImageType == old(activeImageType)
      ensures LastIndexNamed(old(images), name).Some? ==> activeImage == LastIndexNamed(old(images), name).value
                                                          && activeImageType == VolumeType
    {
      var newImages := images;
      var i := 0;
      while i < |images|
        invariant images == old(images)
        invariant 0 <= i <= |images| == |newImages|
        invariant forall j :: 0 <= j < i ==> newImages[j] == Toggled(images, name, value)[j]
        invariant LastIndexNamed(images[..i], name).None? ==> activeImage == old(activeImage) && activeImageType == old(activeImageType)
        invariant LastIndexNamed(images[..i], name).Some? ==> activeImage == LastIndexNamed(images[..i], name).value
                                                              && activeImageType == VolumeType
      {
        assert images[..i + 1][..i] == images[..i];
        if images[i].name == name {
          newImages := newImages[i := images[i].(active := value)];
          activeImage := i;
          activeImageType := VolumeType;
        } else {
          newImages := newImages[i := images[i].(active := false)];
        }
        i := i + 1;
      }
      assert images[..i] == images;
      images := newImages;
    }

    /** `moveImage(drag, hover)`: the entry and the volume move from `drag` to `hover`;
        the active index follows the swap rule as written, or, with `tracking`, the
        active image. */
    method MoveImage(nv: Viewer, drag: nat, hover: nat, tracking: bool)
      requires nv.Valid() && drag < |images| && hover < |images| && drag < |nv.volumes| && hover < |nv.volumes|
      requires 0 <= activeImage
      modifies this`images, this`activeImage, nv`volumes
      ensures nv.Valid() && nv.volumes == Move(old(nv.volumes), drag, hover)
      ensures images == Move(old(images), drag, hover)
      ensures activeImage == if tracking then ActiveTracked(old(activeImage), drag, hover)
                             else ActiveSwapped(old(activeImage), drag, hover)
    {
      images := Move(images, drag, hover);
      WithVolumeAtMoves(nv.volumes, drag, hover);
      nv.SetVolume(nv.volumes[drag], hover);
      if tracking {
        activeImage := ActiveTracked(activeImage, drag, hover);
      } else if activeImage == drag {
        activeImage := hover;
      } else if activeImage == hover {
        activeImage := drag;
      }
    }

    /** `handleMoveUp(index)`: unless already at the top, move the volume up, rebuild
        the list from the viewer (marking the active index it had) and make the first
        volume active. */
    method HandleMoveUp(nv: Viewer, index: nat)
      requires nv.Valid() && index < |nv.volumes|
      modifies nv`volumes, this`images, this`activeImage
      ensures nv.Valid() && nv.volumes == MovedUp(old(nv.volumes), index)
      ensures index == 0 ==> images == old(images) && activeImage == old(activeImage)
      ensures index > 0 ==> images == ImageList(nv.volumes, old(activeImage)) && activeImage == 0
    {
      var newIndex := index as int - 1;
      if newIndex < 0 {
        return;
      }
      WithVolumeAtMoves(nv.volumes, index, newIndex);
      nv.SetVolume(nv.volumes[index], newIndex);
      images := ImageList(nv.volumes, activeImage);
      activeImage := 0;
    }

    /** `handleMoveDown(index)`: unless already at the bottom, move the volume down,
        then as for moving up. */
    method HandleMoveDown(nv: Viewer, index: nat)
      requires nv.Valid() && index < |nv.volumes|
      modifies nv`volumes, this`images, this`activeImage
      ensures nv.Valid() && nv.volumes == MovedDown(old(nv.volumes), index)
      ensures index + 1 == |old(nv.volumes)| ==> images == old(images) && activeImage == old(activeImage)
      ensures index + 1 < |old(nv.volumes)| ==> images == ImageList(nv.volumes, old(activeImage)) && activeImage == 0
    {
      var newIndex := index + 1;
      if newIndex > |nv.volumes| - 1 {
        return;
      }
      WithVolumeAtMoves(nv.volumes, index, newIndex);
      nv.SetVolume(nv.volumes[index], newIndex);
      images := ImageList(nv.volumes, activeImage);
      activeImage := 0;
    }

    /** The close-all handler: remove the volumes from the last index down, drop the
        meshes, and put the volume-related state back as the window starts. */
    method CloseAllVolumes(nv: Viewer)
      requires nv.Valid()
      modifies nv`volumes, nv`meshes
      modifies this`images, this`meshes, this`layers, this`activeImage, this`activeMesh, this`activeLayer
      modifies this`min, this`max, this`opacity, this`calMax, this`calMin, this`colorPickerOpen
      modifies this`sceneSettingsOpen, this`activeImageType
      ensures nv.Valid() && nv.volumes == [] && nv.meshes == []
      ensures VolumesReset()
    {
      RemoveVolumesDownward(nv);
      nv.ClearMeshes();
      ResetVolumeState();
    }

    /** The state resets at the end of the close-all handler: the lists and the
        selection, then the display controls. */
    method ResetVolumeState()
      modifies this`images, this`meshes, this`layers, this`activeImage, this`activeMesh, this`activeLayer
      modifies this`min, this`max, this`opacity, this`calMax, this`calMin, this`colorPickerOpen
      modifies this`sceneSettingsOpen, this`activeImageType
      ensures VolumesReset()
    {
      ResetSelection();
      ResetControls();
    }

    /** The close-all handler's reset of the lists and the active entries. */
    method ResetSelection()
      modifies this`images, this`meshes, this`layers, this`activeImage, this`activeMesh, this`activeLayer
      modifies this`activeImageType
      ensures SelectionReset()
    {
      images := [];
      meshes := [];
      layers := map[];
      activeImage := 0;
      activeMesh := 0;
      activeLayer := 0;
      activeImageType := NoneType;
    }

    /** The close-all handler's reset of the display controls and dialogs. */
    method ResetControls()
      modifies this`min, this`max, this`opacity, this`calMax, this`calMin, this`colorPickerOpen
      modifies this`sceneSettingsOpen
      ensures ControlsReset()
    {
      min := 0.0;
      max := 0.0;
      opacity := 1.0;
      calMax := 0.0;
      calMin := 0.0;
      colorPickerOpen := false;
      sceneSettingsOpen := false;
    }
  }

  /** The close-all loop: `removeVolumeByIndex(i)` for `i` from the last index down
      to 0, so that no removal shifts a volume still to be removed. */
  method RemoveVolumesDownward(nv: Viewer)
    requires nv.Valid()
    modifies nv`volumes
    ensures nv.Valid() && nv.volumes == []
  {
    var i := |nv.volumes| - 1;
    while i >= 0
      invariant -1 <= i < |old(nv.volumes)|
      invariant nv.Valid() && nv.volumes == old(nv.volumes)[..i + 1]
      decreases i
    {
      assert RemoveAt(nv.volumes, i) == old(nv.volumes)[..i];
      nv.RemoveVolumeByIndex(i);
      i := i - 1;
    }
  }
}
