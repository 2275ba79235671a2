# Asset form of the Bakrypt Launchpad, modelled in Dafny

The Launchpad widget lets a user fill in one asset record (token name,
asset name, amount, cover image, description, additional files and
free-form attributes) before it is sent to a minting service. This project
models the record-editing logic of the `AssetForm` component
(`src/components/asset.ts`). It treats the form as a state machine over one
immutable record: an initial state, then one pure update per user event.

- `optional.dfy`: `Optional.Option`, for absent values (`undefined`, an
  event without a path).
- `strings.dfy`: `Strings`, first-occurrence search and replacement. These
  are the semantics of JavaScript's `String.prototype.replace` with two
  string arguments.
- `assets.dfy`: `Assets`, the `IAsset`/`IAssetFile` record, the default
  record `_asset`, the `Field`/`Get`/`OnlyChanged` frame predicate, the
  displayed title, and the four text inputs.
- `amount.dfy`: `Amount`, clamping of amount edits and the token-type badge.
- `files.dfy`: `FileList`, the additional-files list. Each file is a
  `FileSlot` carrying an identity, which stands in for JavaScript object
  identity, because the form deletes files by identity.
- `attributes.dfy`: `Attributes`, the key to value attribute map.
- `gateway.dfy`: `Gateway`, the `ipfs://` to HTTP-gateway rewrite of the
  preview URLs. `Gateway.Rewrite` takes the gateway prefix as a
  parameter, so it also describes the rewrite that
  `src/components/assetFile.ts:39` applies with a Cloudflare prefix.
- `form.dfy`: `AssetForm`, the form state (record, badge, next file
  identity), `Init`, `Step`, `Run`, and the invariants that every event
  sequence keeps.
- `shared_default.dfy`: `SharedDefault`, the unseeded initial record as
  the code actually builds it (see Findings).

## Model

| member | source | states |
|---|---|---|
| Assets.Default | src/components/asset.ts:14-24 | the default record: blockchain `ada`, every text field empty, an empty file list, an empty attribute map, amount 1, no optional fields |
| AssetForm.Init | src/components/asset.ts:114-118 | an unseeded form starts from a record equal to the default; a seeded form starts from the seed, with the same file contents and every other field unchanged; the mount effect shows NFT for amount 1, Fungible above 1 and the initial NFT badge otherwise; file identities start distinct |
| Assets.EditText | src/components/asset.ts:382-479 | a name, asset-name, image or description input sets exactly that field and leaves every other field as it was; an event without a path leaves the record unchanged |
| Assets.Title | src/components/asset.ts:369 | the title is the asset name when that is non-empty, otherwise the token name |
| Amount.Clamp | src/components/asset.ts:412-425 | an amount edit yields at least 1: the parsed number when it is above 1, otherwise exactly 1, including for a missing path or not-a-number |
| Amount.ClampStable | src/components/asset.ts:419-425 | a blur that re-reads the amount just set by an input keeps it |
| Amount.NextKind | src/components/asset.ts:347-353 | the badge becomes NFT/primary for amount 1 and Fungible Token/warning above 1; any other amount keeps the previous badge |
| Amount.KindDeterminedByAmount | src/components/asset.ts:347-353 | for amounts of at least 1 the badge does not depend on the previous badge, and it is NFT exactly when the amount is 1 |
| Amount.NextKindIdempotent | src/components/asset.ts:342-362 | running the badge effect again on the same amount changes nothing |
| FileList.Normalize | src/components/asset.ts:227-229 | a missing or non-array file list becomes the empty list; an array is kept |
| FileList.Append | src/components/asset.ts:225-268 | Add File grows the normalised list by exactly one blank file at index old-length and keeps the earlier files |
| FileList.AppendKeepsIdsDistinct | src/components/asset.ts:225-268 | the appended file is a new object: identities stay distinct and below the counter |
| FileList.SetField | src/components/asset.ts:237-265 | editing a file's name, src or mediaType sets that field and keeps the other two |
| FileList.Edit | src/components/asset.ts:237-265 | a file-field input keeps the list length and identities, rewrites the file with the given identity and no other, and is ignored without a path |
| FileList.EditChangesOneSlot | src/components/asset.ts:237-265 | with distinct identities, a file edit is a single-position update of the list |
| FileList.Remove | src/components/asset.ts:312-320 | Delete never lengthens the list and leaves no file with the deleted identity |
| FileList.RemoveMembers | src/components/asset.ts:319 | the files kept by Delete are exactly the files of other identities |
| FileList.RemoveAbsent | src/components/asset.ts:319 | deleting an identity that is not in the list changes nothing |
| FileList.RemoveSplices | src/components/asset.ts:319 | with distinct identities, deleting the file at position i removes that one entry and keeps the rest in their original order |
| FileList.RemoveKeepsIdsDistinct | src/components/asset.ts:319 | Delete keeps identities distinct and below the counter |
| FileList.AppendThenRemove | src/components/asset.ts:220-326 | adding a file and then deleting it gives back the normalised list |
| Attributes.Add | src/components/asset.ts:161-165 | adding key k sets k to the empty value, overwriting any value, and no other key changes |
| Attributes.Set | src/components/asset.ts:181-189 | a value input sets k to the typed value and no other key changes; an event without a path changes nothing |
| Attributes.Delete | src/components/asset.ts:208-216 | Delete removes k and no other key changes |
| Attributes.AddThenDelete | src/components/asset.ts:155-216 | adding a new key and deleting it restores the map |
| Attributes.SetOverwrites | src/components/asset.ts:181-189 | the last value typed for a key is the one kept |
| Attributes.SetCommutes | src/components/asset.ts:183 | value edits on different keys do not interfere |
| Strings.IndexFrom | src/components/asset.ts:517-522 | the search returns the leftmost occurrence at or after k, or reports that there is none |
| Strings.IndexOf | src/components/asset.ts:517-522 | a position is found exactly when the pattern occurs, and it is the leftmost occurrence |
| Strings.ReplaceFirst | src/components/asset.ts:517-522 | a string without the pattern is returned unchanged; otherwise only the leftmost occurrence is replaced |
| Strings.ReplaceFirstOfPrefixed | src/components/asset.ts:551-554 | a string that begins with the pattern has that prefix replaced |
| Strings.ReplaceFirstKeepsRest | src/components/asset.ts:551-554 | everything after the first occurrence, later occurrences included, is kept verbatim |
| Gateway.Rewrite | src/components/asset.ts:517-522 | a URL without `ipfs://` is unchanged; otherwise its first `ipfs://` becomes the gateway prefix |
| Gateway.CoverSrc | src/components/asset.ts:511-522 | the cover preview is absent exactly when the image is empty; a non-empty image without `ipfs://` is shown as is, and one with it is shown with its first `ipfs://` replaced by the Infura prefix |
| Gateway.FilePreviews | src/components/asset.ts:544-559 | one preview per file in list order, with the file's rewritten src and its name; none when the list is missing |
| Gateway.CoverSrcOfIpfsUri | src/components/asset.ts:517-522 | a cover image `ipfs://<cid>` is previewed as `<InfuraPrefix><cid>` |
| Gateway.RewriteIpfsUri | src/components/asset.ts:551-554 | `ipfs://<cid>` becomes `<prefix><cid>` |
| Gateway.SecondSchemeSurvives | src/components/asset.ts:517-522 | a second `ipfs://` inside the content address is not rewritten |
| Gateway.RewriteIdempotent | src/components/asset.ts:517-522 | the Infura prefix holds no `ipfs://`, so rewriting a rewritten single-scheme URL again changes nothing |
| AssetForm.Rendered | src/components/asset.ts:342-362 | after `setAsset` with a new record the form holds that record; the effect shows the badge the new amount calls for when it is at least 1 and keeps the previous badge otherwise |
| AssetForm.Step | src/components/asset.ts:181-479 | every event changes at most the one record field it is about; only Add File draws a new file identity; only text edits with a value and amount events re-run the badge effect |
| AssetForm.Run | src/components/asset.ts:220-326 | over a sequence of events the file-identity counter grows by exactly one per Add File, so no identity is handed out twice |
| AssetForm.IgnoredWithoutPath | src/components/asset.ts:181-479 | a text, file-field or attribute input without a path leaves the whole form untouched |
| AssetForm.TextEditSets | src/components/asset.ts:436-440 | a text input with a value sets exactly its field |
| AssetForm.AmountEdit | src/components/asset.ts:404-426 | after an amount input or blur the amount is at least 1 (the parsed value above 1, otherwise 1), the badge is NFT exactly when it is 1, and only the amount changed |
| AssetForm.StepPreserves | src/components/asset.ts:342-362 | each event keeps file identities distinct and the badge in line with the amount |
| AssetForm.StepKeepsIdsDistinct | src/components/asset.ts:225-320 | each event keeps file identities distinct and below the counter |
| AssetForm.StepKeepsBadge | src/components/asset.ts:347-353 | each event keeps the badge in line with an amount of at least 1 |
| AssetForm.RunPreserves | src/components/asset.ts:342-362 | any event sequence keeps file identities distinct and the badge in line with the amount |
| AssetForm.RunKeepsAmountPositive | src/components/asset.ts:412-425 | no event sequence brings an amount of at least 1 below 1 |
| AssetForm.DefaultFormBadge | src/components/asset.ts:114-117 | after any events on an unseeded form the amount is at least 1 and the badge is NFT exactly when the amount is 1 |
| AssetForm.AddFileThenDelete | src/components/asset.ts:220-326 | Add File followed by deleting the new file leaves the record with its normalised file list |
| AssetForm.AddFileAppends | src/components/asset.ts:267-268 | Add File appends one blank file at index old-length, with an identity no earlier file has, and keeps the earlier files |
| AssetForm.DeleteFileAt | src/components/asset.ts:312-320 | deleting the file at position i removes that entry only and keeps the others in order |
| AssetForm.EditFileAt | src/components/asset.ts:249-254 | editing a field of the file at position i changes that file only |
| AssetForm.TitleFollowsAssetName | src/components/asset.ts:396-400 | after a non-empty asset name is typed, it is the title whatever the token name |
| AssetForm.TitleFallsBackToName | src/components/asset.ts:382-386 | while the asset name is empty, the title follows the typed token name |
| SharedDefault.InitAsWritten | src/components/asset.ts:118 | as written, an unseeded form's file list is the default record's own array: it shows the default's files, and Add File on it grows the default's array |
| SharedDefault.AddFileAsWritten | src/components/asset.ts:267 | as written, Add File pushes the blank file into whichever array the record holds, the shared default array included |
| SharedDefault.SecondFormInheritsFiles | src/components/asset.ts:14-24 | after one unseeded form adds a file, a second unseeded form starts with that file, whereas the intended initial state has none |

## Left out

- Rendering is not modelled: DOM, shadow-root queries, `createElement`, button groups, the attribute dialog (`openAttrDialog`, `closeAttrDialog`), skeleton placeholders and CSS. Only the values the preview shows are modelled (`Title`, `CoverSrc`, `FilePreviews`).
- Event dispatch is not modelled: `requestUpload` with its `FormData`, and the `upload-file` and `token` custom events that `requestUpload` and `tokenCallback` send to the embedding page. `tokenCallback` also calls `setAsset(asset)` (line 145); the next item describes what that call does.
- `clearFile` is not modelled; it does nothing.
- Haunted closures are not modelled. The listeners that `addFile` and `addAttribute` create capture the record of the render that created them. They mutate that record in place and then call that render's `tokenCallback`, which passes the same record to `setAsset` (lines 187, 215, 240, 252, 263, 320). While no text or amount edit has happened since the listener was created, that record is the current one, so nothing re-renders. After such an edit it is an older record: `setAsset` puts it back, which undoes the later edit and re-runs the badge effect. For example: Add File, type the name "X", then type a file name, and the token name is "" again. The model keeps one current record that every event updates. So `AssetForm.Step` (its frame and unchanged-badge clauses) and the lemmas built on it describe the intended single-record behaviour, not this revert.
- Attributes.Add: models the attribute map as a plain `map<string, string>`. The source defines the key with `Object.defineProperty`, which makes it non-enumerable. The spreads `{ ...asset.attrs }` (lines 186, 214) and `Object.keys` (line 562) skip such keys.
- Attributes.Set: states the evidently intended result: the key holds the typed value and every other key keeps its value. In the source, the spread after the assignment (line 186) copies only enumerable keys. So it drops the edited key and also every other key that "Add" created and no later edit has made enumerable.
- Attributes.Delete: states the evidently intended result: only the deleted key goes. In the source, the spread at line 214 also drops every other key that "Add" created as non-enumerable. For example: Add "a", Add "b", Delete "a" leaves `{}` in the source, while the model keeps `"b"` with the empty value.
- Amount.Clamp: the amount event carries the result of `Number(...)` as an integer or not-a-number. String parsing, fractional and infinite values are floating-point behaviour and are not modelled.
- The `maxlength` and `min` limits are HTML attributes enforced by the widget library, not by this code.
- A seeded record without an `attrs` object is not modelled. There, adding an attribute throws a `TypeError`.
- The `transaction` field is kept as a reference string. The `ITransaction` object form is not modelled.
- `$` substitution patterns in JavaScript's `replace` are not modelled; neither gateway prefix contains `$`.
- `src/components/assetFile.ts` fetches the file and chooses image or video by content type. That is network I/O and is not modelled; its URL rewrite is `Gateway.Rewrite` with the Cloudflare prefix as the parameter.
- Collection re-indexing, royalty stamping, submission and transaction polling are outside `AssetForm` and are not modelled.

## Findings

| source | as written | input that shows it | evidently intended | confidence | as-written member | corrected member |
|---|---|---|---|---|---|---|
| src/components/asset.ts:118 | `{ ..._asset }` is a shallow copy, so an unseeded record shares the module-level default's `files` array, and `asset.files.push(file)` (line 267) writes into it; a later delete (line 319) gives only the deleting form a new array, so the file stays in the shared one | form A is opened without a seed and Add File is pressed; form B is then opened without a seed and starts with A's blank file | every unseeded form starts with an empty file list | medium, not executed | SharedDefault.SecondFormInheritsFiles | AssetForm.Init |
