/** The image-processing panel: it posts the first volume to the worker, and when
    the worker replies it puts the processed bytes back into the viewer, either into
    the volume that was processed or as a new layer. */
module ImageProcessor {
  import opened Common
  import opened Niivue
  import opened ImageWorker

  // ---------------------------------------------------------------------------
  // Posting a volume.

  /** `getImageMetadata()` of a volume, with its id. */
  function MetadataOf(v: Volume): (m: Metadata)
    ensures m.id == v.id && m.datatypeCode == v.hdr.datatypeCode
  {
    Metadata(v.id, v.hdr.datatypeCode, v.hdr.nx, v.hdr.ny, v.hdr.nz, v.hdr.nt,
             v.hdr.dx, v.hdr.dy, v.hdr.dz, v.hdr.dt, v.hdr.bitsPerVoxel / 8)
  }

  /** The message `processImage` posts for volume `v`: its metadata, its bytes, the
      command and the flag. */
  function RequestFor(v: Volume, cmd: seq<uint16>, isNewLayer: bool): (req: Request)
    ensures req.metadata.id == v.id && req.imageBytes == v.img.buffer
  {
    Request(MetadataOf(v), v.img.buffer, cmd, isNewLayer)
  }

  /** `processImage(cmd, isNewLayer)`: with no viewer or no volume nothing is posted;
      otherwise the first volume's metadata and a copy of its bytes are posted with
      the command and the flag. */
  method ProcessImage(nv: Viewer?, cmd: seq<uint16>, isNewLayer: bool) returns (posted: Option<Request>)
    ensures posted.None? <==> nv == null || |nv.volumes| == 0
    ensures posted.Some? ==> nv != null && |nv.volumes| > 0
                             && posted.value == RequestFor(nv.volumes[0], cmd, isNewLayer)
  {
    if nv == null || |nv.volumes| == 0 {
      return None;
    }
    var image := nv.volumes[0];
    posted := Some(Request(MetadataOf(image), image.img.buffer, cmd, isNewLayer));
  }

  /** The posted bytes fill the worker's image region exactly if and only if the
      volume's byte count matches its header. */
  lemma ConsistentVolumeFillsRegion(v: Volume, cmd: seq<uint16>, isNewLayer: bool)
    ensures var req := RequestFor(v, cmd, isNewLayer);
            |req.imageBytes| == ImageBufferSize(req.metadata)
            <==> |v.img.buffer| == v.hdr.nx * v.hdr.ny * v.hdr.nz * v.hdr.nt * (v.hdr.bitsPerVoxel / 8)
  {
  }

  /** Once the module is loaded and both regions are allocated and fit in memory, the
      worker ends in its image range error on the posted request if and only if the
      volume holds more bytes than its header describes. */
  lemma OversizedVolumeRangeError(v: Volume, cmd: seq<uint16>, isNewLayer: bool, exports: Exports,
                                  native: Native, memLength: nat)
    requires exports.Complete()
    requires native.cmdPtr != 0 && native.cmdPtr + |cmd| + 1 <= memLength
    requires native.imgPtr != 0
    requires native.imgPtr + ImageBufferSize(MetadataOf(v)) <= memLength
    ensures ExitOf(Some(exports), RequestFor(v, cmd, isNewLayer), native, memLength) == ImageRangeError
            <==> |v.img.buffer| > v.hdr.nx * v.hdr.ny * v.hdr.nz * v.hdr.nt * (v.hdr.bitsPerVoxel / 8)
  {
  }

  // ---------------------------------------------------------------------------
  // Reading a reply.

  /** Why the reply's bytes could not be viewed: a datatype code outside the four
      handled ones (`throw new Error`), or a byte count that is not a multiple of the
      element width (the typed-array constructor's RangeError). */
  datatype ViewError = Unsupported(code: int) | Misaligned(width: nat)

  /** The element type the handler picks for a NIfTI datatype code. */
  function ElementTypeOf(code: int): (t: Option<ElementType>)
    ensures t.Some? <==> code in {2, 4, 16, 512}
  {
    if code == 2 then Some(Uint8)
    else if code == 4 then Some(Int16)
    else if code == 16 then Some(Float32)
    else if code == 512 then Some(Uint16)
    else None
  }

  /** The typed array the handler puts on the volume. */
  function ViewFor(code: int, bytes: seq<uint8>): (r: Result<TypedArray, ViewError>)
    ensures r.Ok? <==> ElementTypeOf(code).Some? && |bytes| % Width(ElementTypeOf(code).value) == 0
    ensures r.Ok? ==> r.value.elem == ElementTypeOf(code).value && r.value.buffer == bytes
                      && r.value.Length() * Width(r.value.elem) == |bytes|
    ensures r.Err? && ElementTypeOf(code).None? ==> r.error == Unsupported(code)
  {
    match ElementTypeOf(code)
    case None => Err(Unsupported(code))
    case Some(t) =>
      if |bytes| % Width(t) != 0 then Err(Misaligned(Width(t)))
      else Ok(TypedArray(t, bytes))
  }

  /** How a reply was handled. */
  datatype Outcome = NotFound | Failed(error: ViewError) | Updated

  /** Which volume gets the red colormap when a new layer is added as an overlay:
      as written the second volume of the list, as intended the new layer. */
  datatype Colouring = SecondVolume | NewLayer

  /** The outcome of a reply and the volume list it leaves. */
  datatype Handled = Handled(outcome: Outcome, volumes: seq<Volume>)

  /** The volume list after adding the processed copy `v` as a new layer: the second
      volume, if there is one, is removed first; then `v` is either appended and
      coloured red, or set at the end of the list. */
  function WithLayer(vols: seq<Volume>, v: Volume, overlay: bool, colouring: Colouring): seq<Volume>
    requires |vols| > 0
  {
    var kept := if |vols| > 1 then RemoveAt(vols, 1) else vols;
    if overlay then
      var added := kept + [v];
      WithColormap(added, if colouring == SecondVolume then added[1].id else v.id, "red")
    else WithVolumeAt(kept, v, |kept|)
  }

  /** The reply handler's effect on the volume list. */
  function AfterReply(vols: seq<Volume>, reply: Reply, overlay: bool, freshId: string, colouring: Colouring): Handled
  {
    match IndexOfId(vols, reply.id)
    case None => Handled(NotFound, vols)
    case Some(i) =>
      match ViewFor(vols[i].hdr.datatypeCode, reply.imageBytes)
      case Err(e) => Handled(Failed(e), vols)
      case Ok(view) =>
        if reply.isNewLayer then Handled(Updated, WithLayer(vols, vols[i].(id := freshId, img := view), overlay, colouring))
        else Handled(Updated, vols[i := vols[i].(img := view)])
  }

  /** `worker.onmessage`. `freshId` stands for the `uuidv4()` the copy gets; the
      colour target is chosen by `colouring`. */
  method HandleReply(nv: Viewer, reply: Reply, overlay: bool, freshId: string, colouring: Colouring)
    returns (outcome: Outcome)
    requires nv.Valid()
    requires reply.isNewLayer ==> IdFree(nv.volumes, freshId)
    modifies nv`volumes
    ensures nv.Valid()
    ensures Handled(outcome, nv.volumes) == AfterReply(old(nv.volumes), reply, overlay, freshId, colouring)
  {
    var found := IndexOfId(nv.volumes, reply.id);
    if found.None? {
      return NotFound;
    }
    var i := found.value;
    var processed := nv.volumes[i];
    if reply.isNewLayer {
      processed := processed.(id := freshId);
    }
    var view := ViewFor(processed.hdr.datatypeCode, reply.imageBytes);
    if view.Err? {
      return Failed(view.error);
    }
    if reply.isNewLayer {
      processed := processed.(img := view.value);
      if |nv.volumes| > 1 {
        IndexOfOwnId(nv.volumes, 1);
        nv.RemoveVolume(nv.volumes[1].id);
      }
      if overlay {
        nv.AddVolume(processed);
        var target := if colouring == SecondVolume then nv.volumes[1].id else processed.id;
        nv.SetColormap(target, "red");
      } else {
        nv.SetVolume(processed, |nv.volumes|);
      }
    } else {
      nv.SetImage(i, view.value);
    }
    outcome := Updated;
  }

  // ---------------------------------------------------------------------------
  // Properties of a reply.

  /** A reply to a message posted by `ProcessImage` finds the first volume, as long
      as the list has not changed in between. */
  lemma ReplyFindsFirstVolume(vols: seq<Volume>, req: Request, reply: Reply)
    requires |vols| > 0 && req.metadata == MetadataOf(vols[0]) && reply.id == req.metadata.id
    ensures IndexOfId(vols, reply.id) == Some(0)
  {
  }

  /** Adding a layer with a fresh id keeps the ids unique. */
  lemma WithLayerKeepsUnique(vols: seq<Volume>, v: Volume, overlay: bool, colouring: Colouring)
    requires |vols| > 0 && UniqueIds(vols) && IdFree(vols, v.id)
    ensures UniqueIds(WithLayer(vols, v, overlay, colouring))
  {
    var kept := if |vols| > 1 then RemoveAt(vols, 1) else vols;
    KeptPlusLayerUnique(vols, v);
    if overlay {
      var added := kept + [v];
      ColormapKeepsUnique(added, if colouring == SecondVolume then added[1].id else v.id, "red");
    } else {
      assert IndexOfId(kept, v.id).None?;
      assert Splice(kept, |kept|, 0, [v]) == kept + [v];
    }
  }

  /** The list without its second volume, plus a volume with a fresh id, has unique ids. */
  lemma KeptPlusLayerUnique(vols: seq<Volume>, v: Volume)
    requires |vols| > 0 && UniqueIds(vols) && IdFree(vols, v.id)
    ensures var kept := if |vols| > 1 then RemoveAt(vols, 1) else vols;
            UniqueIds(kept + [v]) && IdFree(kept, v.id)
  {
    var kept := if |vols| > 1 then RemoveAt(vols, 1) else vols;
    if |vols| > 1 {
      RemoveKeepsUnique(vols, 1);
    }
    InsertKeepsUnique(kept, |kept|, v);
    assert Splice(kept, |kept|, 0, [v]) == kept + [v];
  }

  /** Setting a colormap leaves every id where it was. */
  lemma ColormapKeepsUnique(vols: seq<Volume>, id: string, name: string)
    requires UniqueIds(vols)
    ensures UniqueIds(WithColormap(vols, id, name))
  {
    var r := WithColormap(vols, id, name);
    assert forall j :: 0 <= j < |r| ==> r[j].id == vols[j].id;
  }

  /** Nothing changes unless the reply was applied, and the ids stay unique when the
      new layer's id is fresh. */
  lemma ReplyKeepsList(vols: seq<Volume>, reply: Reply, overlay: bool, freshId: string, colouring: Colouring)
    requires UniqueIds(vols) && (reply.isNewLayer ==> IdFree(vols, freshId))
    ensures var h := AfterReply(vols, reply, overlay, freshId, colouring);
            UniqueIds(h.volumes) && (h.outcome != Updated ==> h.volumes == vols)
            && (h.outcome == NotFound <==> IdFree(vols, reply.id))
  {
    match IndexOfId(vols, reply.id) {
      case None =>
      case Some(i) =>
        match ViewFor(vols[i].hdr.datatypeCode, reply.imageBytes) {
          case Err(_) =>
          case Ok(view) =>
            if reply.isNewLayer {
              WithLayerKeepsUnique(vols, vols[i].(id := freshId, img := view), overlay, colouring);
            }
        }
    }
  }

  /** Without a new layer, the processed volume gets the reply's bytes and keeps
      everything else; every other volume is untouched. */
  lemma InPlaceReply(vols: seq<Volume>, reply: Reply, overlay: bool, freshId: string, colouring: Colouring)
    requires !reply.isNewLayer
    requires AfterReply(vols, reply, overlay, freshId, colouring).outcome == Updated
    ensures var r := AfterReply(vols, reply, overlay, freshId, colouring).volumes;
            var i := IndexOfId(vols, reply.id).value;
            |r| == |vols| && r[i].img.buffer == reply.imageBytes
            && r[i] == vols[i].(img := r[i].img)
            && forall j :: 0 <= j < |vols| && j != i ==> r[j] == vols[j]
  {
  }

  /** A new layer ends the list and carries the reply's bytes under the fresh id;
      the list before it is the old list without its second volume. */
  lemma {:induction false} NewLayerReply(vols: seq<Volume>, reply: Reply, overlay: bool, freshId: string, colouring: Colouring)
    requires UniqueIds(vols) && IdFree(vols, freshId)
    requires reply.isNewLayer
    requires AfterReply(vols, reply, overlay, freshId, colouring).outcome == Updated
    ensures var r := AfterReply(vols, reply, overlay, freshId, colouring).volumes;
            var kept := if |vols| > 1 then RemoveAt(vols, 1) else vols;
            |r| == |kept| + 1
            && r[|kept|].id == freshId && r[|kept|].img.buffer == reply.imageBytes
            && forall j :: 0 <= j < |kept| ==> r[j].id == kept[j].id && r[j].img == kept[j].img
  {
    var i := IndexOfId(vols, reply.id).value;
    var view := ViewFor(vols[i].hdr.datatypeCode, reply.imageBytes).value;
    var v := vols[i].(id := freshId, img := view);
    var kept := if |vols| > 1 then RemoveAt(vols, 1) else vols;
    if !overlay {
      assert IdFree(kept, freshId);
      assert Splice(kept, |kept|, 0, [v]) == kept + [v];
    }
  }

  /** An applied new-layer reply leaves the list `WithLayer` gives for the found
      volume, renamed and carrying the reply's view. */
  lemma AppliedNewLayer(vols: seq<Volume>, reply: Reply, overlay: bool, freshId: string, colouring: Colouring)
    requires reply.isNewLayer
    requires AfterReply(vols, reply, overlay, freshId, colouring).outcome == Updated
    ensures IndexOfId(vols, reply.id).Some?
    ensures var i := IndexOfId(vols, reply.id).value;
            var view := ViewFor(vols[i].hdr.datatypeCode, reply.imageBytes);
            && view.Ok?
            && AfterReply(vols, reply, overlay, freshId, colouring).volumes
               == WithLayer(vols, vols[i].(id := freshId, img := view.value), overlay, colouring)
  {
  }

  /** As written, once three or more volumes are loaded, the red colormap lands on
      the old third volume, now second, and the new layer keeps the colormap of the
      volume it was copied from. */
  lemma SecondVolumeColouredRed(vols: seq<Volume>, reply: Reply, freshId: string)
    requires UniqueIds(vols) && IdFree(vols, freshId) && |vols| >= 3
    requires reply.isNewLayer
    requires AfterReply(vols, reply, true, freshId, SecondVolume).outcome == Updated
    ensures var r := AfterReply(vols, reply, true, freshId, SecondVolume).volumes;
            |r| == |vols| && r[1] == vols[2].(colormap := "red")
            && r[|vols| - 1].id == freshId
            && r[|vols| - 1].colormap == vols[IndexOfId(vols, reply.id).value].colormap
  {
    AppliedNewLayer(vols, reply, true, freshId, SecondVolume);
    var i := IndexOfId(vols, reply.id).value;
    var kept := RemoveAt(vols, 1);
    var v := vols[i].(id := freshId, img := ViewFor(vols[i].hdr.datatypeCode, reply.imageBytes).value);
    var added := kept + [v];
    RemoveKeepsUnique(vols, 1);
    InsertKeepsUnique(kept, |kept|, v);
    assert Splice(kept, |kept|, 0, [v]) == added;
    IndexOfOwnId(added, 1);
    assert added[1] == vols[2] && added[|kept|] == v;
  }

  /** Colouring the new layer by its own id: the new layer is red and every other
      volume keeps its colormap, however many volumes are loaded. */
  lemma NewLayerColouredRed(vols: seq<Volume>, reply: Reply, freshId: string)
    requires UniqueIds(vols) && IdFree(vols, freshId)
    requires reply.isNewLayer
    requires AfterReply(vols, reply, true, freshId, NewLayer).outcome == Updated
    ensures var r := AfterReply(vols, reply, true, freshId, NewLayer).volumes;
            var kept := if |vols| > 1 then RemoveAt(vols, 1) else vols;
            r == kept + [r[|r| - 1]] && r[|r| - 1].id == freshId && r[|r| - 1].colormap == "red"
  {
    AppliedNewLayer(vols, reply, true, freshId, NewLayer);
    var i := IndexOfId(vols, reply.id).value;
    var kept := if |vols| > 1 then RemoveAt(vols, 1) else vols;
    var v := vols[i].(id := freshId, img := ViewFor(vols[i].hdr.datatypeCode, reply.imageBytes).value);
    var added := kept + [v];
    if |vols| > 1 {
      RemoveKeepsUnique(vols, 1);
    }
    InsertKeepsUnique(kept, |kept|, v);
    assert Splice(kept, |kept|, 0, [v]) == added;
    IndexOfOwnId(added, |kept|);
  }

  /** With one or two volumes loaded the two colourings agree. */
  lemma ColouringsAgreeOnSmallLists(vols: seq<Volume>, reply: Reply, freshId: string)
    requires UniqueIds(vols) && IdFree(vols, freshId) && |vols| <= 2
    ensures AfterReply(vols, reply, true, freshId, SecondVolume) == AfterReply(vols, reply, true, freshId, NewLayer)
  {
    match IndexOfId(vols, reply.id) {
      case None =>
      case Some(i) =>
        match ViewFor(vols[i].hdr.datatypeCode, reply.imageBytes) {
          case Err(_) =>
          case Ok(view) =>
            if reply.isNewLayer {
              var kept := if |vols| > 1 then RemoveAt(vols, 1) else vols;
              var v := vols[i].(id := freshId, img := view);
              assert |kept| == 1;
              assert (kept + [v])[1] == v;
            }
        }
    }
  }
}
