/** The ordered list of additional files: append a blank file, edit one
    field of one file, delete a file by identity. */
module FileList {
  import opened Optional
  import opened Assets

  /** No two slots share an identity. */
  predicate DistinctIds(fs: seq<FileSlot>) {
    forall i, j :: 0 <= i < j < |fs| ==> fs[i].id != fs[j].id
  }

  /** Every identity in use is below `n`, so `n` is fresh. */
  predicate IdsBelow(fs: seq<FileSlot>, n: nat) {
    forall i :: 0 <= i < |fs| ==> fs[i].id < n
  }

  /** Some slot has identity `id`. */
  predicate HasId(fs: seq<FileSlot>, id: nat) {
    exists i :: 0 <= i < |fs| && fs[i].id == id
  }

  /** A missing or non-array `files` is replaced by the empty list. */
  function Normalize(files: Option<seq<FileSlot>>): (fs: seq<FileSlot>)
    ensures files.Some? ==> fs == files.value
    ensures files.None? ==> fs == []
  {
    files.GetOr([])
  }

  /** "Add File": normalise the list, then append one blank file with the
      fresh identity `id`. */
  function Append(files: Option<seq<FileSlot>>, id: nat): (r: seq<FileSlot>)
    ensures |r| == |Normalize(files)| + 1
    ensures r[..|r| - 1] == Normalize(files)
    ensures r[|r| - 1] == FileSlot(id, EmptyFile)
  {
    Normalize(files) + [FileSlot(id, EmptyFile)]
  }

  /** Appending a fresh identity keeps identities distinct and below the
      next counter value. */
  lemma AppendKeepsIdsDistinct(files: Option<seq<FileSlot>>, n: nat)
    requires DistinctIds(Normalize(files)) && IdsBelow(Normalize(files), n)
    ensures DistinctIds(Append(files, n)) && IdsBelow(Append(files, n), n + 1)
  {
  }

  /** The three inputs of a file row. */
  datatype FileField = FileName | FileSrc | FileMediaType

  /** Sets one field of a file. */
  function SetField(f: AssetFile, field: FileField, v: string): (g: AssetFile)
    ensures field == FileName ==> g.name == v && g.src == f.src && g.mediaType == f.mediaType
    ensures field == FileSrc ==> g.src == v && g.name == f.name && g.mediaType == f.mediaType
    ensures field == FileMediaType ==> g.mediaType == v && g.name == f.name && g.src == f.src
  {
    match field
    case FileName => f.(name := v)
    case FileSrc => f.(src := v)
    case FileMediaType => f.(mediaType := v)
  }

  /** An input event on a field of the file with identity `id`. The
      listener writes into that file object, so every slot with that
      identity is affected and every other slot is left alone; an event
      without a path writes nothing. */
  function Edit(fs: seq<FileSlot>, id: nat, field: FileField, v: Option<string>): (r: seq<FileSlot>)
    ensures |r| == |fs|
    ensures forall j :: 0 <= j < |r| ==> r[j].id == fs[j].id
    ensures forall j :: 0 <= j < |r| && (fs[j].id != id || v.None?) ==> r[j] == fs[j]
    ensures forall j :: 0 <= j < |r| && fs[j].id == id && v.Some? ==>
              r[j].file == SetField(fs[j].file, field, v.value)
  {
    match v
    case None => fs
    case Some(s) =>
      seq(|fs|, j requires 0 <= j < |fs| =>
        if fs[j].id == id then FileSlot(id, SetField(fs[j].file, field, s)) else fs[j])
  }

  /** With distinct identities an edit changes exactly the one slot that
      carries the identity. */
  lemma {:induction false} EditChangesOneSlot(fs: seq<FileSlot>, id: nat, field: FileField, v: string, i: nat)
    requires DistinctIds(fs) && i < |fs| && fs[i].id == id
    ensures Edit(fs, id, field, Some(v)) == fs[i := FileSlot(id, SetField(fs[i].file, field, v))]
  {
    var r := Edit(fs, id, field, Some(v));
    var e := fs[i := FileSlot(id, SetField(fs[i].file, field, v))];
    forall j | 0 <= j < |fs|
      ensures r[j] == e[j]
    {
      if j != i {
        assert fs[j].id != id;
      }
    }
  }

  /** "Delete": keeps every slot whose identity differs from `id`, in order. */
  function Remove(fs: seq<FileSlot>, id: nat): (r: seq<FileSlot>)
    ensures |r| <= |fs|
    ensures forall j :: 0 <= j < |r| ==> r[j].id != id
  {
    if fs == [] then []
    else (if fs[0].id == id then [] else [fs[0]]) + Remove(fs[1..], id)
  }

  /** The slots left by a delete are exactly the slots of other identities. */
  lemma {:induction false} RemoveMembers(fs: seq<FileSlot>, id: nat)
    ensures forall s :: s in Remove(fs, id) <==> s in fs && s.id != id
  {
    if fs != [] {
      RemoveMembers(fs[1..], id);
      assert fs == [fs[0]] + fs[1..];
    }
  }

  /** Removing an identity that is not present changes nothing. */
  lemma {:induction false} RemoveAbsent(fs: seq<FileSlot>, id: nat)
    requires !HasId(fs, id)
    ensures Remove(fs, id) == fs
  {
    if fs != [] {
      assert fs[0].id != id;
      assert !HasId(fs[1..], id) by {
        forall i | 0 <= i < |fs[1..]|
          ensures fs[1..][i].id != id
        {
          assert fs[1..][i] == fs[i + 1];
        }
      }
      RemoveAbsent(fs[1..], id);
      assert fs == [fs[0]] + fs[1..];
    }
  }

  /** With distinct identities, deleting the file at position `i` removes
      exactly that entry and keeps the others in their original order. */
  lemma {:induction false} RemoveSplices(fs: seq<FileSlot>, id: nat, i: nat)
    requires DistinctIds(fs) && i < |fs| && fs[i].id == id
    ensures Remove(fs, id) == fs[..i] + fs[i + 1..]
    ensures |Remove(fs, id)| == |fs| - 1
  {
    var tail := fs[1..];
    assert Remove(fs, id) == (if fs[0].id == id then [] else [fs[0]]) + Remove(tail, id);
    if i == 0 {
      assert !HasId(tail, id) by {
        forall k | 0 <= k < |tail|
          ensures tail[k].id != id
        {
          assert tail[k] == fs[k + 1];
        }
      }
      RemoveAbsent(tail, id);
    } else {
      assert DistinctIds(tail) by {
        forall a, b | 0 <= a < b < |tail|
          ensures tail[a].id != tail[b].id
        {
          assert tail[a] == fs[a + 1] && tail[b] == fs[b + 1];
        }
      }
      assert tail[i - 1] == fs[i];
      RemoveSplices(tail, id, i - 1);
      assert fs[0].id != id;
      assert fs[..i] == [fs[0]] + tail[..i - 1];
      assert fs[i + 1..] == tail[i..];
    }
  }

  /** Deleting keeps identities distinct and below the counter. */
  lemma {:induction false} RemoveKeepsIdsDistinct(fs: seq<FileSlot>, id: nat, n: nat)
    requires DistinctIds(fs) && IdsBelow(fs, n)
    ensures DistinctIds(Remove(fs, id)) && IdsBelow(Remove(fs, id), n)
  {
    if fs != [] {
      var tail := fs[1..];
      assert DistinctIds(tail) && IdsBelow(tail, n) by {
        forall a | 0 <= a < |tail|
          ensures tail[a] == fs[a + 1]
        {
        }
      }
      RemoveKeepsIdsDistinct(tail, id, n);
      RemoveMembers(tail, id);
      var rest := Remove(tail, id);
      if fs[0].id != id {
        assert fs[0] !in tail by {
          forall k | 0 <= k < |tail|
            ensures tail[k].id != fs[0].id
          {
            assert tail[k] == fs[k + 1];
          }
        }
        assert fs[0] !in rest;
        var r := [fs[0]] + rest;
        forall a, b | 0 <= a < b < |r|
          ensures r[a].id != r[b].id
        {
          if a == 0 {
            assert r[b] == rest[b - 1];
            assert r[b] in tail;
          }
        }
      }
    }
  }

  /** Adding a file and then deleting it gives back the normalised list. */
  lemma AppendThenRemove(files: Option<seq<FileSlot>>, n: nat)
    requires IdsBelow(Normalize(files), n)
    ensures Remove(Append(files, n), n) == Normalize(files)
  {
    var fs := Normalize(files);
    var r := Append(files, n);
    assert DistinctIds(fs) ==> DistinctIds(r);
    assert !HasId(fs, n);
    RemoveAbsent(fs, n);
    RemoveConcat(fs, [FileSlot(n, EmptyFile)], n);
  }

  /** Deleting from a concatenation deletes from both parts. */
  lemma {:induction false} RemoveConcat(a: seq<FileSlot>, b: seq<FileSlot>, id: nat)
    ensures Remove(a + b, id) == Remove(a, id) + Remove(b, id)
  {
    if a == [] {
      assert a + b == b;
    } else {
      assert (a + b)[1..] == a[1..] + b;
      RemoveConcat(a[1..], b, id);
    }
  }
}
