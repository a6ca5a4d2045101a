/** The part of the external rendering library's `Niivue` object that the UI code
    drives: the ordered list of loaded volumes and meshes. Its operations are
    modelled by their effect on that list, not by the library's code. */
module Niivue {
  import opened Common

  /** The scalar types a volume's voxels can have here. */
  datatype ElementType = Uint8 | Int16 | Float32 | Uint16

  /** Bytes per element of a typed array of this type. */
  function Width(t: ElementType): (w: nat)
    ensures w in {1, 2, 4}
  {
    match t
    case Uint8 => 1
    case Int16 => 2
    case Float32 => 4
    case Uint16 => 2
  }

  /** A typed array: its element type and the bytes of its buffer. Element values
      (integers or floats) are not modelled, only how many there are. */
  datatype TypedArray = TypedArray(elem: ElementType, buffer: seq<uint8>)
  {
    function Length(): nat
    {
      |buffer| / Width(elem)
    }
  }

  /** The header fields the UI reads. */
  datatype Header = Header(datatypeCode: int, nx: nat, ny: nat, nz: nat, nt: nat,
                           dx: real, dy: real, dz: real, dt: real, bitsPerVoxel: nat)

  /** A loaded volume: identity, source url, name, header, voxel data and colormap name. */
  datatype Volume = Volume(id: string, url: string, name: string, hdr: Header, img: TypedArray, colormap: string)

  /** No volume of `vols` has this id. */
  predicate IdFree(vols: seq<Volume>, id: string)
  {
    forall i :: 0 <= i < |vols| ==> vols[i].id != id
  }

  /** Every volume has its own id (the library gives each volume a fresh UUID). */
  predicate UniqueIds(vols: seq<Volume>)
  {
    forall i, j :: 0 <= i < j < |vols| ==> vols[i].id != vols[j].id
  }

  /** `getVolumeIndexByID`: the first index holding this id. */
  function IndexOfId(vols: seq<Volume>, id: string): (r: Option<nat>)
    ensures r.None? <==> IdFree(vols, id)
    ensures r.Some? ==> r.value < |vols| && vols[r.value].id == id && IdFree(vols[..r.value], id)
  {
    if |vols| == 0 then None
    else if vols[0].id == id then Some(0)
    else
      var rest := IndexOfId(vols[1..], id);
      assert vols[1..][..if rest.Some? then rest.value else 0] == vols[1..if rest.Some? then rest.value + 1 else 1];
      if rest.Some? then Some(rest.value + 1) else None
  }

  /** Under unique ids, a listed volume's own id finds that volume's index. */
  lemma IndexOfOwnId(vols: seq<Volume>, i: nat)
    requires UniqueIds(vols) && i < |vols|
    ensures IndexOfId(vols, vols[i].id) == Some(i)
  {
  }

  /** Dropping a volume keeps the ids unique, and its id is then free. */
  lemma RemoveKeepsUnique(vols: seq<Volume>, i: nat)
    requires UniqueIds(vols) && i < |vols|
    ensures UniqueIds(RemoveAt(vols, i)) && IdFree(RemoveAt(vols, i), vols[i].id)
  {
  }

  /** Inserting a volume with a free id keeps the ids unique. */
  lemma InsertKeepsUnique(vols: seq<Volume>, at: nat, v: Volume)
    requires UniqueIds(vols) && IdFree(vols, v.id)
    ensures UniqueIds(Splice(vols, at, 0, [v]))
  {
    var r := Splice(vols, at, 0, [v]);
    var at := if at <= |vols| then at else |vols|;
    assert r == vols[..at] + [v] + vols[at..];
    forall i, j | 0 <= i < j < |r| ensures r[i].id != r[j].id {
      if i < at && j > at {
        assert r[j] == vols[j - 1];
      } else if i > at {
        assert r[i] == vols[i - 1] && r[j] == vols[j - 1];
      }
    }
  }

  /** The volume list after `setColormap(id, name)`: the first volume with that id
      gets the colormap, nothing else changes. */
  function WithColormap(vols: seq<Volume>, id: string, name: string): (r: seq<Volume>)
    ensures |r| == |vols|
    ensures forall i :: 0 <= i < |vols| ==> r[i].id == vols[i].id && r[i].img == vols[i].img
  {
    match IndexOfId(vols, id)
    case None => vols
    case Some(i) => vols[i := vols[i].(colormap := name)]
  }

  /** The volume list after `setVolume(v, toIndex)`. A listed volume (found by id) is
      taken out and `v` is put back at `toIndex`; an unlisted one is inserted there;
      an index past the end changes nothing. */
  function WithVolumeAt(vols: seq<Volume>, v: Volume, toIndex: nat): (r: seq<Volume>)
  {
    if toIndex > |vols| then vols
    else match IndexOfId(vols, v.id)
      case None => Splice(vols, toIndex, 0, [v])
      case Some(i) => Splice(RemoveAt(vols, i), toIndex, 0, [v])
  }

  /** Moving a listed volume to another listed position is the list move. */
  lemma WithVolumeAtMoves(vols: seq<Volume>, from: nat, to: nat)
    requires UniqueIds(vols) && from < |vols| && to < |vols|
    ensures WithVolumeAt(vols, vols[from], to) == Move(vols, from, to)
  {
    IndexOfOwnId(vols, from);
  }

  class Viewer {
    var volumes: seq<Volume>
    var meshes: seq<string>

    ghost predicate Valid()
      reads this
    {
      UniqueIds(volumes)
    }

    constructor ()
      ensures Valid() && volumes == [] && meshes == []
    {
      volumes := [];
      meshes := [];
    }

    /** `addVolume`: append. */
    method AddVolume(v: Volume)
      requires Valid() && IdFree(volumes, v.id)
      modifies this`volumes
      ensures Valid() && volumes == old(volumes) + [v]
    {
      InsertKeepsUnique(volumes, |volumes|, v);
      assert Splice(volumes, |volumes|, 0, [v]) == volumes + [v];
      volumes := volumes + [v];
    }

    /** `removeVolumeByIndex`. */
    method RemoveVolumeByIndex(i: nat)
      requires Valid() && i < |volumes|
      modifies this`volumes
      ensures Valid() && volumes == RemoveAt(old(volumes), i)
    {
      RemoveKeepsUnique(volumes, i);
      volumes := RemoveAt(volumes, i);
    }

    /** Removing the volume that has the given id, if one has. */
    method RemoveVolume(id: string)
      requires Valid()
      modifies this`volumes
      ensures Valid()
      ensures IndexOfId(old(volumes), id).None? ==> volumes == old(volumes)
      ensures IndexOfId(old(volumes), id).Some? ==> volumes == RemoveAt(old(volumes), IndexOfId(old(volumes), id).value)
    {
      var found := IndexOfId(volumes, id);
      if found.Some? {
        RemoveKeepsUnique(volumes, found.value);
        volumes := RemoveAt(volumes, found.value);
      }
    }

    /** `setVolume(v, toIndex)`. */
    method SetVolume(v: Volume, toIndex: nat)
      requires Valid()
      modifies this`volumes
      ensures Valid() && volumes == WithVolumeAt(old(volumes), v, toIndex)
    {
      if toIndex <= |volumes| {
        var found := IndexOfId(volumes, v.id);
        if found.None? {
          InsertKeepsUnique(volumes, toIndex, v);
          volumes := Splice(volumes, toIndex, 0, [v]);
        } else {
          var rest := RemoveAt(volumes, found.value);
          RemoveKeepsUnique(volumes, found.value);
          InsertKeepsUnique(rest, toIndex, v);
          volumes := Splice(rest, toIndex, 0, [v]);
        }
      }
    }

    /** `setColormap(id, name)`. */
    method SetColormap(id: string, name: string)
      requires Valid()
      modifies this`volumes
      ensures Valid() && volumes == WithColormap(old(volumes), id, name)
    {
      volumes := WithColormap(volumes, id, name);
    }

    /** Assigning `img` on a listed volume object. */
    method SetImage(i: nat, img: TypedArray)
      requires Valid() && i < |volumes|
      modifies this`volumes
      ensures Valid() && volumes == old(volumes)[i := old(volumes)[i].(img := img)]
    {
      volumes := volumes[i := volumes[i].(img := img)];
    }

    /** `nv.meshes = []`. */
    method ClearMeshes()
      modifies this`meshes
      ensures meshes == []
    {
      meshes := [];
    }
  }
}
