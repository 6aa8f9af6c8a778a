/** Reading files back through the pool of their folder. */
module PooledReading {
  import opened Basics
  import opened HeaderData
  import opened HeaderStreams
  import opened HeaderFiles
  import opened Placement
  import opened ArchiveWriter
  import opened ArchiveHeader
  import opened FolderDecoding
  import opened EndToEnd
  import F = FolderFiles

  // The files of folder r, and the number of each among them.
  method Extents(files: Files, spots: seq<Spot>, r: nat) returns (extents: seq<F.Extent>, at: seq<nat>)
    requires |spots| == |files|
    ensures |at| == |files|
    ensures forall k :: 0 <= k < |files| && spots[k].At? && spots[k].folder == r ==>
              at[k] < |extents| && extents[at[k]] == F.Extent(spots[k].offset, files[k].size)
  {
    extents, at := [], [];
    for k := 0 to |files|
      invariant |at| == k
      invariant forall m :: 0 <= m < k && spots[m].At? && spots[m].folder == r ==>
                  at[m] < |extents| && extents[at[m]] == F.Extent(spots[m].offset, files[m].size)
    {
      at := at + [|extents|];
      if spots[k].At? && spots[k].folder == r {
        extents := extents + [F.Extent(spots[k].offset, files[k].size)];
      }
    }
  }

  // Any files of a folder, in any order and as often as one likes, each opened at a reader from the
  // pool, read in pieces to its end and closed: every time this gives what was written to the file.
  method ReadFiles(w: Writer, crc: Checksum, run: CoderRun, r: nat, order: seq<nat>,
                   slots: nat, len: nat, give: nat, eager: bool)
    returns (got: seq<seq<byte>>)
    requires w.Valid() && w.closed && Fits(w.files, w.folders) && |w.folders| > 0 && |w.out| < TWO63
    requires forall i :: 0 <= i < |w.files| ==> !w.files[i].open
    requires Undoes(run, w.folders) && r < |w.folders|
    requires forall m :: 0 <= m < |order| ==> order[m] < |w.files| && w.files[order[m]].fold == Some(r)
    requires slots > 0 && len > 0 && give > 0
    ensures |got| == |order| && forall m :: 0 <= m < |order| ==> got[m] == w.files[order[m]].written
  {
    hide *;
    got := [];
    if |order| == 0 {
      return;
    }
    var files, i, spots := OpenArchive(w, crc);
    FoundIs(w, crc, files, spots, order[0]);
    var data := ReadFolder(w, i, r, run);
    var extents, at := Extents(files, spots, r);
    var ff := new F.FolderFiles(data, UnpackSize(i.unpackInfo.value.folder[r]), extents, slots);
    for n := 0 to |order|
      invariant ff.Valid() && fresh(ff) && fresh(ff.pool) && ff.data == data && ff.files == extents
      invariant |got| == n && forall m :: 0 <= m < n ==> got[m] == w.files[order[m]].written
    {
      FoundIs(w, crc, files, spots, order[n]);
      var res := ff.ReadWhole(at[order[n]], len, give, eager);
      got := got + [res.value.0];
    }
  }
}
