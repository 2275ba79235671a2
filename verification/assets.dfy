/** The asset record edited by the form (the `IAsset` / `IAssetFile` shape),
    the default record, and the frame predicate "only this field changed". */
module Assets {
  import opened Optional

  /** One additional file attached to an asset. */
  datatype AssetFile = AssetFile(name: string, src: string, mediaType: string)

  /** The blank file the form appends when "Add File" is pressed. */
  const EmptyFile := AssetFile("", "", "")

  /** A file together with the identity of the JavaScript object holding it:
      the form deletes files by object identity, so two files with equal
      contents are still different entries. */
  datatype FileSlot = FileSlot(id: nat, file: AssetFile)

  /** The file contents of a list, without the object identities. */
  function Contents(files: Option<seq<FileSlot>>): (r: Option<seq<AssetFile>>)
    ensures r.None? <==> files.None?
    ensures files.Some? ==> |r.value| == |files.value|
    ensures files.Some? ==> forall j :: 0 <= j < |files.value| ==> r.value[j] == files.value[j].file
  {
    match files
    case None => None
    case Some(fs) => Some(seq(|fs|, j requires 0 <= j < |fs| => fs[j].file))
  }

  /** The asset record. `files` is `None` when the record has no `files`
      array (a seeded record may lack it or hold a non-array there).
      `amount` is a JavaScript number; only its integer values are modelled.
      The transaction is kept as its reference string. */
  datatype Asset = Asset(
    uuid: Option<string>,
    blockchain: string,
    name: string,
    assetName: string,
    image: string,
    mediaType: string,
    description: string,
    files: Option<seq<FileSlot>>,
    attrs: map<string, string>,
    amount: int,
    royalties: Option<string>,
    royaltiesRate: Option<string>,
    transaction: Option<string>)

  /** The module-level default record `_asset`. */
  function Default(): (a: Asset)
    ensures a.blockchain == "ada" && a.amount == 1
    ensures a.name == "" && a.assetName == "" && a.image == ""
    ensures a.mediaType == "" && a.description == ""
    ensures a.files == Some([]) && a.attrs == map[]
    ensures a.uuid.None? && a.royalties.None? && a.royaltiesRate.None? && a.transaction.None?
  {
    Asset(None, "ada", "", "", "", "", "", Some([]), map[], 1, None, None, None)
  }

  /** The fields of a record, used to state which ones an edit touches. */
  datatype Field =
    | Uuid | Blockchain | Name | AssetName | Image | MediaType | Description
    | Files | Attrs | Amount | Royalties | RoyaltiesRate | Transaction

  /** The value of a field, whatever its type. */
  datatype Value =
    | Text(s: string)
    | MaybeText(o: Option<string>)
    | FilesVal(fs: Option<seq<FileSlot>>)
    | AttrMap(m: map<string, string>)
    | NumberVal(n: int)

  function Get(a: Asset, f: Field): Value {
    match f
    case Uuid => MaybeText(a.uuid)
    case Blockchain => Text(a.blockchain)
    case Name => Text(a.name)
    case AssetName => Text(a.assetName)
    case Image => Text(a.image)
    case MediaType => Text(a.mediaType)
    case Description => Text(a.description)
    case Files => FilesVal(a.files)
    case Attrs => AttrMap(a.attrs)
    case Amount => NumberVal(a.amount)
    case Royalties => MaybeText(a.royalties)
    case RoyaltiesRate => MaybeText(a.royaltiesRate)
    case Transaction => MaybeText(a.transaction)
  }

  /** Every field other than `f` has the same value in `a` and `b`. */
  predicate OnlyChanged(a: Asset, b: Asset, f: Field) {
    forall g :: g != f ==> Get(a, g) == Get(b, g)
  }

  /** The heading shown above the form: the asset name when one is set,
      otherwise the token name. */
  function Title(a: Asset): (t: string)
    ensures |a.assetName| > 0 ==> t == a.assetName
    ensures a.assetName == [] ==> t == a.name
  {
    if |a.assetName| < 1 then a.name else a.assetName
  }

  /** The four free-text inputs of the form. */
  datatype TextInput = NameInput | AssetNameInput | ImageInput | DescriptionInput {
    function Target(): Field {
      match this
      case NameInput => Name
      case AssetNameInput => AssetName
      case ImageInput => Image
      case DescriptionInput => Description
    }
  }

  /** An input event on one of the text inputs. `v` is the value carried by
      the event's path; an event without a path is ignored. */
  function EditText(a: Asset, input: TextInput, v: Option<string>): (r: Asset)
    ensures v.None? ==> r == a
    ensures v.Some? ==> Get(r, input.Target()) == Text(v.value)
    ensures OnlyChanged(a, r, input.Target())
  {
    match v
    case None => a
    case Some(s) =>
      match input
      case NameInput => a.(name := s)
      case AssetNameInput => a.(assetName := s)
      case ImageInput => a.(image := s)
      case DescriptionInput => a.(description := s)
  }
}
