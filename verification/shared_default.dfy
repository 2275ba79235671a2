/** The unseeded initial record as the form actually builds it.
    `{ ..._asset }` copies the default record one level deep, so the new
    record's `files` is the very array held by the module-level default,
    and "Add File" pushes into it. Every later unseeded form then starts
    with the files added by earlier ones. `AssetForm.Init` is the intended
    behaviour: an unseeded form always starts with an empty list. */
module SharedDefault {
  import opened Assets
  import AssetForm
  import opened Optional

  /** The contents of the one array `_asset.files`, shared by all forms. */
  datatype Heap = Heap(defaultFiles: seq<AssetFile>)

  /** What a form's `files` points at: the shared default array, or an
      array of its own. */
  datatype FilesRef = Shared | Own(files: seq<AssetFile>)

  /** The files a form sees through its reference. */
  function Files(h: Heap, r: FilesRef): seq<AssetFile> {
    match r
    case Shared => h.defaultFiles
    case Own(fs) => fs
  }

  /** `useState({ ..._asset })`: the copy holds the default's array. */
  function InitAsWritten(h: Heap): (r: FilesRef)
    ensures Files(h, r) == h.defaultFiles
    ensures AddFileAsWritten(h, r).0.defaultFiles == h.defaultFiles + [EmptyFile]
  {
    Shared
  }

  /** "Add File" as written: the blank file is pushed into whichever array
      the form's record holds, the shared one included. */
  function AddFileAsWritten(h: Heap, r: FilesRef): (res: (Heap, FilesRef))
    ensures Files(res.0, res.1) == Files(h, r) + [EmptyFile]
    ensures r.Shared? ==> res.0.defaultFiles == h.defaultFiles + [EmptyFile]
    ensures r.Own? ==> res.0 == h
  {
    match r
    case Shared => (Heap(h.defaultFiles + [EmptyFile]), Shared)
    case Own(fs) => (h, Own(fs + [EmptyFile]))
  }

  /** Two unseeded forms: the first adds a file, then the second is opened.
      As written, the second starts with the first one's file; the intended
      initial state has no files. */
  lemma SecondFormInheritsFiles()
    ensures var h0 := Heap([]);
      var h1 := AddFileAsWritten(h0, InitAsWritten(h0)).0;
      Files(h1, InitAsWritten(h1)) == [EmptyFile]
    ensures AssetForm.Init(None).asset.files == Some([])
  {
  }
}
