/** The asset form as a state machine over one current record: the initial
    state, and one step per user event. The badge effect reruns whenever an
    edit hands the form a new record object (text edits with a value and
    every amount event). The file and attribute handlers mutate the current
    record in place and hand the same object back, so they do not rerun it;
    the source's listeners actually hold the record of the render that
    created them, which this model does not follow (see the README). */
module AssetForm {
  import opened Optional
  import opened Assets
  import opened Amount
  import FileList
  import Attributes

  /** The form's state: the current record, the token-type badge, and the
      next unused file identity. */
  datatype FormState = FormState(asset: Asset, kind: TokenKind, nextFileId: nat)

  /** A user event on the form. Every `v` is the value carried by the
      event's path, `None` when the event has none. */
  datatype Event =
    | TextEdit(input: TextInput, v: Option<string>)
    | AmountInput(n: AmountEvent)
    | AmountBlur(n: AmountEvent)
    | AddFile
    | FileEdit(id: nat, field: FileList.FileField, v: Option<string>)
    | FileDelete(id: nat)
    | AttrAdd(key: string)
    | AttrEdit(key: string, v: Option<string>)
    | AttrDelete(key: string)

  /** The one field an event may change. */
  function Touches(e: Event): Field {
    match e
    case TextEdit(input, _) => input.Target()
    case AmountInput(_) => Amount
    case AmountBlur(_) => Amount
    case AddFile => Files
    case FileEdit(_, _, _) => Files
    case FileDelete(_) => Files
    case AttrAdd(_) => Attrs
    case AttrEdit(_, _) => Attrs
    case AttrDelete(_) => Attrs
  }

  /** File identities are distinct and all below the counter. */
  predicate Valid(s: FormState) {
    var fs := FileList.Normalize(s.asset.files);
    FileList.DistinctIds(fs) && FileList.IdsBelow(fs, s.nextFileId)
  }

  /** Whenever the amount is at least one, the badge is the one that amount
      calls for. */
  predicate BadgeMatches(s: FormState) {
    s.asset.amount >= 1 ==> s.kind == NextKind(InitialKind, s.asset.amount)
  }

  /** Gives each file of a seeded record its own identity, in order. */
  function Retag(files: Option<seq<FileSlot>>): (r: Option<seq<FileSlot>>)
    ensures Contents(r) == Contents(files)
    ensures r.Some? ==> forall j :: 0 <= j < |r.value| ==> r.value[j].id == j
  {
    match files
    case None => None
    case Some(fs) =>
      var r := seq(|fs|, j requires 0 <= j < |fs| => FileSlot(j, fs[j].file));
      assert Contents(Some(r)).value == Contents(files).value;
      Some(r)
  }

  /** The form on first render: the seeded record, or a fresh copy of the
      default; the mount effect has set the badge from the amount. */
  function Init(seed: Option<Asset>): (s: FormState)
    ensures seed.None? ==> s.asset == Default()
    ensures seed.None? ==> s.asset.blockchain == "ada" && s.asset.amount == 1
    ensures seed.None? ==> s.asset.name == "" && s.asset.assetName == "" && s.asset.image == ""
    ensures seed.None? ==> s.asset.mediaType == "" && s.asset.description == ""
    ensures seed.None? ==> s.asset.files == Some([]) && s.asset.attrs == map[]
    ensures seed.Some? ==> OnlyChanged(seed.value, s.asset, Files)
    ensures seed.Some? ==> Contents(s.asset.files) == Contents(seed.value.files)
    ensures s.asset.amount == 1 ==> s.kind == Nft
    ensures s.asset.amount > 1 ==> s.kind == Fungible
    ensures s.asset.amount < 1 ==> s.kind == InitialKind
    ensures Valid(s) && BadgeMatches(s)
  {
    var a := match seed
      case None => Default()
      case Some(x) => x.(files := Retag(x.files));
    var n := |FileList.Normalize(a.files)|;
    FormState(a, NextKind(InitialKind, a.amount), n)
  }

  /** The form after `setAsset(a)` with a new record: it re-renders and the
      effect recomputes the badge from the new amount. */
  function Rendered(s: FormState, a: Asset): (r: FormState)
    ensures r.asset == a && r.nextFileId == s.nextFileId
    ensures a.amount >= 1 ==> r.kind == NextKind(InitialKind, a.amount)
    ensures a.amount < 1 ==> r.kind == s.kind
  {
    FormState(a, NextKind(s.kind, a.amount), s.nextFileId)
  }

  /** The form after one event. It changes at most the one record field the
      event is about; only "Add File" draws a new file identity; only events
      that hand the form a new record rerun the badge effect. */
  function Step(s: FormState, e: Event): (r: FormState)
    ensures OnlyChanged(s.asset, r.asset, Touches(e))
    ensures r.nextFileId == if e.AddFile? then s.nextFileId + 1 else s.nextFileId
    ensures !(e.AmountInput? || e.AmountBlur? || (e.TextEdit? && e.v.Some?)) ==> r.kind == s.kind
  {
    var a := s.asset;
    match e
    case TextEdit(input, v) =>
      if v.Some? then Rendered(s, EditText(a, input, v)) else s
    case AmountInput(n) => Rendered(s, a.(amount := Clamp(n)))
    case AmountBlur(n) => Rendered(s, a.(amount := Clamp(n)))
    case AddFile =>
      s.(asset := a.(files := Some(FileList.Append(a.files, s.nextFileId))),
         nextFileId := s.nextFileId + 1)
    case FileEdit(id, field, v) =>
      (match a.files
       case None => s
       case Some(fs) => s.(asset := a.(files := Some(FileList.Edit(fs, id, field, v)))))
    case FileDelete(id) =>
      (match a.files
       case None => s
       case Some(fs) => s.(asset := a.(files := Some(FileList.Remove(fs, id)))))
    case AttrAdd(k) => s.(asset := a.(attrs := Attributes.Add(a.attrs, k)))
    case AttrEdit(k, v) => s.(asset := a.(attrs := Attributes.Set(a.attrs, k, v)))
    case AttrDelete(k) => s.(asset := a.(attrs := Attributes.Delete(a.attrs, k)))
  }

  /** The form after a sequence of events, in order. File identities are
      never handed out twice: the counter only grows, by one per "Add File". */
  function Run(s: FormState, es: seq<Event>): (r: FormState)
    ensures r.nextFileId == s.nextFileId + CountAddFile(es)
    decreases |es|
  {
    if es == [] then s else Run(Step(s, es[0]), es[1..])
  }

  /** The number of "Add File" events in a sequence. */
  function CountAddFile(es: seq<Event>): nat
    decreases |es|
  {
    if es == [] then 0 else (if es[0].AddFile? then 1 else 0) + CountAddFile(es[1..])
  }

  /** An input event without a path leaves the whole form untouched. */
  lemma IgnoredWithoutPath(s: FormState, e: Event)
    requires e.TextEdit? || e.FileEdit? || e.AttrEdit?
    requires e.v.None?
    ensures Step(s, e) == s
  {
  }

  /** A text edit with a value sets exactly that field. */
  lemma TextEditSets(s: FormState, input: TextInput, v: string)
    ensures Get(Step(s, TextEdit(input, Some(v))).asset, input.Target()) == Text(v)
    ensures OnlyChanged(s.asset, Step(s, TextEdit(input, Some(v))).asset, input.Target())
  {
  }

  /** After an amount input or blur the amount is the parsed number when
      that is above one and exactly one otherwise, and the badge agrees. */
  lemma AmountEdit(s: FormState, e: Event)
    requires e.AmountInput? || e.AmountBlur?
    ensures var r := Step(s, e);
      && r.asset.amount >= 1
      && (e.n.Some? && e.n.value.Int? && e.n.value.n > 1 ==> r.asset.amount == e.n.value.n)
      && (!(e.n.Some? && e.n.value.Int? && e.n.value.n > 1) ==> r.asset.amount == 1)
      && (r.kind == Nft <==> r.asset.amount == 1)
      && OnlyChanged(s.asset, r.asset, Amount)
  {
  }

  /** One step keeps file identities distinct and the badge in line with
      the amount. */
  lemma StepPreserves(s: FormState, e: Event)
    requires Valid(s) && BadgeMatches(s)
    ensures Valid(Step(s, e)) && BadgeMatches(Step(s, e))
  {
    StepKeepsIdsDistinct(s, e);
    StepKeepsBadge(s, e);
  }

  /** One step keeps file identities distinct and below the counter. */
  lemma StepKeepsIdsDistinct(s: FormState, e: Event)
    requires Valid(s)
    ensures Valid(Step(s, e))
  {
    var a := s.asset;
    match e
    case AddFile =>
      FileList.AppendKeepsIdsDistinct(a.files, s.nextFileId);
    case FileDelete(id) =>
      if a.files.Some? {
        FileList.RemoveKeepsIdsDistinct(a.files.value, id, s.nextFileId);
      }
    case FileEdit(id, field, v) =>
      if a.files.Some? {
        var fs := a.files.value;
        var r := FileList.Edit(fs, id, field, v);
        assert FileList.DistinctIds(r) by {
          forall i, j | 0 <= i < j < |r|
            ensures r[i].id != r[j].id
          {
            assert r[i].id == fs[i].id && r[j].id == fs[j].id;
          }
        }
      }
    case _ =>
      assert Get(s.asset, Files) == Get(Step(s, e).asset, Files);
  }

  /** One step keeps the badge in line with an amount of at least one. */
  lemma StepKeepsBadge(s: FormState, e: Event)
    requires BadgeMatches(s)
    ensures BadgeMatches(Step(s, e))
  {
    var r := Step(s, e);
    if e.AmountInput? || e.AmountBlur? || (e.TextEdit? && e.v.Some?) {
      if r.asset.amount >= 1 {
        KindDeterminedByAmount(s.kind, InitialKind, r.asset.amount);
      }
    } else {
      assert Get(s.asset, Amount) == Get(r.asset, Amount);
    }
  }

  /** Any sequence of events keeps file identities distinct and the badge
      in line with the amount. */
  lemma {:induction false} RunPreserves(s: FormState, es: seq<Event>)
    requires Valid(s) && BadgeMatches(s)
    ensures Valid(Run(s, es)) && BadgeMatches(Run(s, es))
    decreases |es|
  {
    if es != [] {
      StepPreserves(s, es[0]);
      RunPreserves(Step(s, es[0]), es[1..]);
    }
  }

  /** No event brings a positive amount below one. */
  lemma {:induction false} RunKeepsAmountPositive(s: FormState, es: seq<Event>)
    requires s.asset.amount >= 1
    ensures Run(s, es).asset.amount >= 1
    decreases |es|
  {
    if es != [] {
      assert Get(s.asset, Amount) == Get(Step(s, es[0]).asset, Amount) || Touches(es[0]) == Amount;
      RunKeepsAmountPositive(Step(s, es[0]), es[1..]);
    }
  }

  /** A form started from the default record, after any events, has an
      amount of at least one and shows the NFT badge exactly when the
      amount is one. */
  lemma DefaultFormBadge(es: seq<Event>)
    ensures Run(Init(None), es).asset.amount >= 1
    ensures Run(Init(None), es).kind == Nft <==> Run(Init(None), es).asset.amount == 1
  {
    RunKeepsAmountPositive(Init(None), es);
    RunPreserves(Init(None), es);
  }

  /** Adding a file and deleting it again leaves the record with its
      normalised file list. */
  lemma AddFileThenDelete(s: FormState)
    requires Valid(s)
    ensures Step(Step(s, AddFile), FileDelete(s.nextFileId)).asset
            == s.asset.(files := Some(FileList.Normalize(s.asset.files)))
  {
    FileList.AppendThenRemove(s.asset.files, s.nextFileId);
  }

  /** "Add File" appends one blank file at index old-length with a fresh
      identity and keeps the earlier files. */
  lemma AddFileAppends(s: FormState)
    requires Valid(s)
    ensures var r := Step(s, AddFile);
      var old_ := FileList.Normalize(s.asset.files);
      && r.asset.files.Some?
      && |r.asset.files.value| == |old_| + 1
      && r.asset.files.value[..|old_|] == old_
      && r.asset.files.value[|old_|].file == EmptyFile
      && !FileList.HasId(old_, r.asset.files.value[|old_|].id)
  {
  }

  /** Deleting the file at position `i` removes that entry only and keeps
      the others in order. */
  lemma DeleteFileAt(s: FormState, i: nat)
    requires Valid(s) && s.asset.files.Some? && i < |s.asset.files.value|
    ensures var fs := s.asset.files.value;
      Step(s, FileDelete(fs[i].id)).asset.files == Some(fs[..i] + fs[i + 1..])
  {
    FileList.RemoveSplices(s.asset.files.value, s.asset.files.value[i].id, i);
  }

  /** Editing a field of the file at position `i` changes that file only. */
  lemma EditFileAt(s: FormState, i: nat, field: FileList.FileField, v: string)
    requires Valid(s) && s.asset.files.Some? && i < |s.asset.files.value|
    ensures var fs := s.asset.files.value;
      Step(s, FileEdit(fs[i].id, field, Some(v))).asset.files
        == Some(fs[i := FileSlot(fs[i].id, FileList.SetField(fs[i].file, field, v))])
  {
    FileList.EditChangesOneSlot(s.asset.files.value, s.asset.files.value[i].id, field, v, i);
  }

  /** A non-empty asset name becomes the title, whatever the token name. */
  lemma TitleFollowsAssetName(s: FormState, v: string)
    requires |v| > 0
    ensures Title(Step(s, TextEdit(AssetNameInput, Some(v))).asset) == v
  {
  }

  /** While the asset name is empty, the title follows the token name. */
  lemma TitleFallsBackToName(s: FormState, v: string)
    requires s.asset.assetName == []
    ensures Title(Step(s, TextEdit(NameInput, Some(v))).asset) == v
  {
  }
}
