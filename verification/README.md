# SAFE-REP inspection capture, in Dafny

SAFE-REP is an Android app for bridge inspectors. An inspection photo session runs through four steps:

1. **Site.** On the home screen the inspector picks a site.
2. **Settings form.** The inspector fills in the shooting settings: an optional location, an inspection part chosen among fixed chips, and a detail picked from a per-part catalogue sheet or typed in. The camera button then commits the form into the session.
3. **Camera.** The inspector shoots a batch of photos; each captured image handle is appended to the session.
4. **Preview.** The preview screen shows the folder the images will go to. It lets the inspector retake the batch, or confirm and save it before going home.

**Saving.** Each image is saved in turn into the shared image store:
- a pending row is inserted;
- the image is copied into it;
- an EXIF description tag is written. The tag holds a Base64 encoding of the UTF-8 bytes of a four-key JSON object: site, part, detail, capture time;
- the row is released.

Any failure after the insertion deletes that row. The batch reports one boolean and one message.

This project models that core with pure functions over immutable data, plus two methods for the batch loop. Modules:

- `Basics`: the `Option` type and bytes.
- `Text`: blank text, decimal numbers, zero padding and `split`.
- `Clock`: the two `SimpleDateFormat` patterns.
- `Base64`: section 4 of RFC 4648. The decoder skips line breaks.
- `Utf8`: the UTF-8 codec.
- `Json`: the text `JSONObject.toString()` writes for string members, and a reader for it.
- `Metadata`: the description tag.
- `SessionState`: the view model's fields, `addPhoto` and `clearPhotos`.
- `Naming`: file names, the base path, and the `java.io.File` path rules for the relative path.
- `ImageStore`: the image store as a map from row id to row.
- `Commit`: `saveSingleImage` and `saveCapturedImages`.
- `Settings`: the settings form, the detail catalogue and sheet, and the camera gate.
- `Preview`: the preview screen's drawing, buttons, dialog and `isSaving` guard.

The platform enters as a parameter, `Commit.Platform`, with four parts:
- whether the OS has scoped storage;
- the bytes behind each captured handle;
- a per-position fault oracle that decides which save step fails;
- a per-position clock string for the file-name stamp, which is read once per image.

The minute-precision session time enters as a parameter (`now`) of the camera gate.

All paths below are under `app/src/main/java/com/example/saferep/`.

## Model

| member | source | states |
|---|---|---|
| SessionState.AddPhoto | app/src/main/java/com/example/saferep/model/PhotoSettingViewModel.kt:36-38 | the handle list grows by exactly one, the new handle is last, the earlier handles keep their order, and no other field changes |
| SessionState.ClearPhotos | app/src/main/java/com/example/saferep/model/PhotoSettingViewModel.kt:40-42 | the handle list is empty and the five text fields and the base path are untouched |
| SessionState.CaptureOrder | app/src/main/java/com/example/saferep/ui/proto/CameraScreen.kt:65-67 | after any run of shots the handle list is the old list followed by the shots in shot order, and no field has changed |
| SessionState.ClearForgetsShots | app/src/main/java/com/example/saferep/model/PhotoSettingViewModel.kt:40-42 | clearing after any run of shots gives the same session as clearing before it |
| Naming.LocationSegment | app/src/main/java/com/example/saferep/model/PhotoSettingViewModel.kt:76-80 | a blank location adds no leading segment to the file name; a non-blank location is the first segment, followed by `_` and the name a blank location gives |
| Naming.NameIndexRoundTrip | app/src/main/java/com/example/saferep/model/PhotoSettingViewModel.kt:76-80 | whatever the session fields and the time stamp contain, the batch position can be read back from the name as the number after the last `_`, less one |
| Naming.NamesDistinct | app/src/main/java/com/example/saferep/model/PhotoSettingViewModel.kt:55-80 | two different batch positions never produce the same name, even when each image's stamp is taken separately |
| Naming.DatePart | app/src/main/java/com/example/saferep/ui/proto/PhotoPreviewScreen.kt:186 | the date part is a prefix of the timestamp with no space in it; it is the whole timestamp when there is no space, otherwise a space follows it (so "" for an empty timestamp) |
| Naming.BasePathSegments | app/src/main/java/com/example/saferep/ui/proto/PhotoPreviewScreen.kt:191-195 | when the site, timestamp, location, part and detail hold no '/', the base path split at '/' reads `SAFE-REP`, site, date, "" for a blank location, and `SAFE-REP`, site, date, location, part, detail, "" otherwise |
| Naming.BasePathShape | app/src/main/java/com/example/saferep/ui/proto/PhotoPreviewScreen.kt:191-195 | both forms start with `SAFE-REP/{site}/{date}/`, the blank-location form is a prefix of the other, and both end with '/' and do not start with '/' |
| Naming.NormalizeIdempotent | app/src/main/java/com/example/saferep/model/PhotoSettingViewModel.kt:88 | the path normal form `File` applies is idempotent |
| Naming.ResolveIsNormalJoin | app/src/main/java/com/example/saferep/model/PhotoSettingViewModel.kt:88 | joining a clean parent with a relative child gives the normal form of parent + "/" + child |
| Naming.RelativePathIsShownPath | app/src/main/java/com/example/saferep/model/PhotoSettingViewModel.kt:88 | for any folder not starting with '/', the relative path the save records is the normal form of `Pictures/` + folder |
| Naming.SavedWhereShown | app/src/main/java/com/example/saferep/model/PhotoSettingViewModel.kt:88 | when every folder segment is present and free of '/', the recorded relative path followed by '/' is exactly `Pictures/` + base path |
| Commit.SaveSingleImage | app/src/main/java/com/example/saferep/model/PhotoSettingViewModel.kt:73-136 | the save succeeds exactly when insertion, opening the source, copying, the metadata write (unless no descriptor is returned) and the release all go through; on success exactly one fresh row is added; on failure the rows are those there were before |
| Commit.SavedEntryContents | app/src/main/java/com/example/saferep/model/PhotoSettingViewModel.kt:83-128 | a saved row is not pending and is a JPEG holding the source bytes; its name encodes its position; it has a relative path exactly on scoped storage, and that path is the one derived from the session base path; it has a tag exactly when a descriptor was returned, and the tag reads back as the session's payload |
| Commit.LocationNotRecorded | app/src/main/java/com/example/saferep/model/PhotoSettingViewModel.kt:109-114 | the location does not affect the metadata payload |
| Commit.AllSavedIffCountComplete | app/src/main/java/com/example/saferep/model/PhotoSettingViewModel.kt:55-63 | the success count equals the number of images exactly when every image's save succeeds |
| Commit.RowNamesDistinct | app/src/main/java/com/example/saferep/model/PhotoSettingViewModel.kt:55-84 | the rows of any two batch positions have different display names |
| Commit.BatchEffect | app/src/main/java/com/example/saferep/model/PhotoSettingViewModel.kt:55-59 | after saving the first n images, every earlier row is kept unchanged; each new row is the saved row of a successful image, and each successful image has one; the new rows' names are distinct; their number is the number of successes |
| Commit.NoPendingAfterBatch | app/src/main/java/com/example/saferep/model/PhotoSettingViewModel.kt:90-136 | no row added by a batch is left pending |
| Commit.SaveInOrder | app/src/main/java/com/example/saferep/model/PhotoSettingViewModel.kt:51-59 | the loop saves the images one at a time in capture order, ends in the store of saving them all in order, and counts the successes, at most the total |
| Commit.SaveCapturedImages | app/src/main/java/com/example/saferep/model/PhotoSettingViewModel.kt:44-70 | an empty batch reports false and "저장할 이미지가 없습니다." and leaves the store untouched; otherwise the result is true exactly when every image was saved, the message is the report of the total and the success count, and the store holds what `BatchEffect` describes |
| Commit.ReportRoundTrip | app/src/main/java/com/example/saferep/model/PhotoSettingViewModel.kt:63-67 | the total and the success count can be read back from the report message, for a complete batch and a partial one (zero successes included) |
| Commit.ReportsDistinguishOutcomes | app/src/main/java/com/example/saferep/model/PhotoSettingViewModel.kt:63-67 | two reports are equal only when their totals and success counts are equal |
| Commit.NothingToSaveIsNoReport | app/src/main/java/com/example/saferep/model/PhotoSettingViewModel.kt:45-67 | the empty-batch message is different from every report and carries no counts |
| Metadata.ObjectHasExactlyTheFourKeys | app/src/main/java/com/example/saferep/model/PhotoSettingViewModel.kt:109-116 | the JSON text parses to exactly four members, 현장명, 구분, 세부점검부위, 촬영시각 in that order, mapped to site, part, detail and timestamp |
| Metadata.LookupsFindTheFields | app/src/main/java/com/example/saferep/model/PhotoSettingViewModel.kt:109-114 | looking up each of the four keys finds its own field |
| Metadata.DescriptionRoundTrip | app/src/main/java/com/example/saferep/model/PhotoSettingViewModel.kt:109-120 | decoding the one tag value (Base64, then UTF-8, then JSON, then the four lookups) recovers site, part, detail and timestamp |
| Metadata.DescribeInjective | app/src/main/java/com/example/saferep/model/PhotoSettingViewModel.kt:109-120 | different payloads never give the same tag value |
| Metadata.WrappedDescriptionReads | app/src/main/java/com/example/saferep/model/PhotoSettingViewModel.kt:117 | the tag still decodes to the payload however its text is broken into lines, as the platform encoder's line wrapping does |
| Json.ObjectRoundTrip | app/src/main/java/com/example/saferep/model/PhotoSettingViewModel.kt:109-116 | reading the object text of any list of string members gives the members back, in order |
| Utf8.RoundTrip | app/src/main/java/com/example/saferep/model/PhotoSettingViewModel.kt:117 | decoding the UTF-8 encoding of any text gives the text back |
| Base64.RoundTrip | app/src/main/java/com/example/saferep/model/PhotoSettingViewModel.kt:117 | decoding the Base64 encoding of any octets gives the octets back |
| Base64.LineBreakIgnored | app/src/main/java/com/example/saferep/model/PhotoSettingViewModel.kt:117 | a line break anywhere in the encoded text does not change what it decodes to |
| Text.DecimalRoundTrip | app/src/main/java/com/example/saferep/model/PhotoSettingViewModel.kt:77 | the decimal text of a number reads back as that number |
| Text.SplitJoin | app/src/main/java/com/example/saferep/ui/proto/PhotoPreviewScreen.kt:186 | joining the pieces of a split with the separator gives the text back |
| Clock.MinuteStampIsWellFormed | app/src/main/java/com/example/saferep/ui/proto/PhotoSettingsScreen.kt:51 | the session time of a valid instant has the `yyyy-MM-dd HH:mm` shape: sixteen characters, digits except '-', ' ' and ':' in fixed places |
| Clock.DateOfInstant | app/src/main/java/com/example/saferep/ui/proto/PhotoSettingsScreen.kt:51 | the text before the first space of the session time is the `yyyy-MM-dd` date of the same instant |
| Clock.FileStampCharacters | app/src/main/java/com/example/saferep/model/PhotoSettingViewModel.kt:75 | the `yyyyMMdd-HHmmss` stamp format holds only digits and '-'; this covers the format only, since the save takes its stamp from the platform clock parameter and the naming lemmas hold for any stamp |
| ImageStore.DeleteUndoesExtension | app/src/main/java/com/example/saferep/model/PhotoSettingViewModel.kt:131-135 | deleting a row added since a store state, however it was changed since, gives back that state's rows |
| ImageStore.RunEffect | app/src/main/java/com/example/saferep/model/PhotoSettingViewModel.kt:55-59 | a run of attempts, each adding its row on success and nothing otherwise, keeps old rows, adds exactly the successful rows with distinct names, and adds as many rows as successes |
| ImageStore.CountTrueComplete | app/src/main/java/com/example/saferep/model/PhotoSettingViewModel.kt:63 | the count of successes among n attempts is n exactly when every attempt succeeded |
| Settings.SiteNotBlank | app/src/main/java/com/example/saferep/ui/proto/HomeScreen.kt:243 | each site the site sheet offers is not blank and holds no '/' |
| Settings.DetailItems | app/src/main/java/com/example/saferep/ui/proto/PhotoSettingsScreen.kt:381-390 | exactly the seven known parts list details; their list ends with "직접입력" and has it nowhere else; every item is non-empty and free of '/' |
| Settings.CatalogueAgreesWithPartOf | app/src/main/java/com/example/saferep/ui/proto/PhotoSettingsScreen.kt:381-390 | every catalogue detail other than "직접입력" is mapped back to its own part by the reverse catalogue |
| Settings.DetailNamesItsPart | app/src/main/java/com/example/saferep/ui/proto/PhotoSettingsScreen.kt:381-390 | no detail other than "직접입력" is listed under two parts |
| Settings.InitialSelection | app/src/main/java/com/example/saferep/ui/proto/PhotoSettingsScreen.kt:392-397 | the sheet opens on the first catalogue detail of a known part and on "직접입력" for any other part; the selection is always an item the sheet can show |
| Settings.OpenSheet | app/src/main/java/com/example/saferep/ui/proto/PhotoSettingsScreen.kt:397-398 | a freshly opened sheet satisfies the sheet invariant for its part |
| Settings.SheetStep | app/src/main/java/com/example/saferep/ui/proto/PhotoSettingsScreen.kt:438-473 | clicking an item selects it, clears the text for a catalogue item and keeps it for "직접입력"; typing sets the text only while "직접입력" is selected and otherwise changes nothing; the invariant is kept: the selection is a showable item, and the text is empty unless "직접입력" is selected |
| Settings.TypedTextIsResult | app/src/main/java/com/example/saferep/ui/proto/PhotoSettingsScreen.kt:423-473 | for a known part, selecting "직접입력" (the last button) and typing a text makes the confirm button hand back exactly that text |
| Settings.SheetResult | app/src/main/java/com/example/saferep/ui/proto/PhotoSettingsScreen.kt:423-428 | confirming yields the typed text when "직접입력" is selected, otherwise a catalogue detail of the part, which is non-empty and free of '/' |
| Settings.SheetRunKeepsOk | app/src/main/java/com/example/saferep/ui/proto/PhotoSettingsScreen.kt:438-473 | any sequence of clicks and typing keeps the sheet invariant and the part |
| Settings.ConfirmRightAway | app/src/main/java/com/example/saferep/ui/proto/PhotoSettingsScreen.kt:397-428 | confirming an untouched sheet gives the first catalogue detail of a known part, and "" for any other part |
| Settings.Start | app/src/main/java/com/example/saferep/ui/proto/PhotoSettingsScreen.kt:39-58 | the form starts on chip "상부" with empty location, direct input and detail, the camera disabled, and a site that the home screen only passes when it is not blank |
| Settings.TapChip | app/src/main/java/com/example/saferep/ui/proto/PhotoSettingsScreen.kt:189-199 | the tapped chip is selected; any chip but "직접입력" empties the direct input; leaving "직접입력" for another chip forgets the detail; otherwise the detail is kept |
| Settings.TypeDirect | app/src/main/java/com/example/saferep/ui/proto/PhotoSettingsScreen.kt:205-208 | typing sets both the direct input and the detail to the typed text |
| Settings.Reselect | app/src/main/java/com/example/saferep/ui/proto/PhotoSettingsScreen.kt:261-265 | reselecting empties the detail and returns the chip to "상부" |
| Settings.Step | app/src/main/java/com/example/saferep/ui/proto/PhotoSettingsScreen.kt:160-265 | every enabled control keeps the form invariant; a sheet confirmed for the selected chip sets the detail to the sheet's result |
| Settings.RunKeepsConsistent | app/src/main/java/com/example/saferep/ui/proto/PhotoSettingsScreen.kt:160-265 | every form reachable by any actions satisfies the invariant: site not blank, chip one of the chips, direct input empty unless its chip is selected, and under "직접입력" the detail is the typed text, or a blank detail carried over from the sheet with the field empty |
| Settings.OpenCamera | app/src/main/java/com/example/saferep/ui/proto/PhotoSettingsScreen.kt:120-132 | the camera opens exactly when the detail is non-empty; it writes site, location, time, part and detail into the session, empties the handle list, and keeps the base path |
| Settings.DateOfFormTime | app/src/main/java/com/example/saferep/ui/proto/PhotoSettingsScreen.kt:51 | the date part of the form time is its first ten characters, the `yyyy-MM-dd` date, with no '/' |
| Settings.CommittedSessionFolder | app/src/main/java/com/example/saferep/ui/proto/PhotoSettingsScreen.kt:121-127 | a session committed from a consistent form, with no '/' in the typed fields, has clean folder segments, so its images are recorded under `Pictures/` + base path |
| Preview.Enter | app/src/main/java/com/example/saferep/ui/proto/PhotoPreviewScreen.kt:42-43 | the screen opens with no dialog and no save running |
| Preview.Draw | app/src/main/java/com/example/saferep/ui/proto/PhotoPreviewScreen.kt:185-198 | drawing records the base path computed from the session in the session, and changes nothing else |
| Preview.DrawIdempotent | app/src/main/java/com/example/saferep/ui/proto/PhotoPreviewScreen.kt:198-200 | drawing again changes nothing, and the folder shown does not depend on the base path stored before |
| Preview.DrawnFolderIsSaveFolder | app/src/main/java/com/example/saferep/ui/proto/PhotoPreviewScreen.kt:198-200 | when the site and date are present and free of '/', and so are the location, part and detail for a non-blank location, then once drawn the relative path the save records, followed by '/', is the shown text `Pictures/` + base path |
| Preview.SavedRowInShownFolder | app/src/main/java/com/example/saferep/ui/proto/PhotoPreviewScreen.kt:198-200 | on scoped storage, with the same clean-segment condition and a handle that has source bytes, a row saved after drawing has a relative path, and that path followed by '/' is the folder the screen showed |
| Preview.PressHome | app/src/main/java/com/example/saferep/ui/proto/PhotoPreviewScreen.kt:80-83 | the home button opens the dialog and changes nothing else |
| Preview.Dismiss | app/src/main/java/com/example/saferep/ui/proto/PhotoPreviewScreen.kt:256-258 | cancelling closes the dialog; a running save goes on |
| Preview.Confirm | app/src/main/java/com/example/saferep/ui/proto/PhotoPreviewScreen.kt:221-224 | a save starts exactly when the dialog is open and none is running, and it is then marked as running |
| Preview.Deliver | app/src/main/java/com/example/saferep/ui/proto/PhotoPreviewScreen.kt:225-239 | a result ends the save and closes the dialog; true clears the photos, keeps every field and goes home; false keeps the session and the screen |
| Preview.Retake | app/src/main/java/com/example/saferep/ui/proto/PhotoPreviewScreen.kt:96-101 | retake empties the handle list, changes no field and returns to the camera |
| Preview.OneSaveAtATime | app/src/main/java/com/example/saferep/ui/proto/PhotoPreviewScreen.kt:221-243 | within one preview screen instance, until a result arrives, any presses start at most one save, none while one is running, and a started save stays marked as running |
| Preview.ConfirmAndSave | app/src/main/java/com/example/saferep/ui/proto/PhotoPreviewScreen.kt:218-242 | a confirm press with the dialog open and no save running saves the images in order and delivers the result (home with photos cleared on full success, the session kept otherwise); with a non-empty batch the delivered message is the count report for the number of images saved; any other press changes nothing |

## Behaviour the model keeps

- **Empty batch.** Saving an empty batch reports `false` with "저장할 이미지가 없습니다." and touches nothing (`Commit.SaveCapturedImages`).
- **Report messages.** There are two messages and no failure reasons: one when every image was saved, and "총 N 개 중 M 개만 저장되었습니다." otherwise, even when M = 0 (`Commit.ReportMessage`).
- **Partial success.** `success` is false unless every image was saved. The preview stays open and the photos are kept (`Preview.Deliver`).
- **Base path.** The base path is written only when the preview screen is drawn, not when the form fields change (`Preview.Draw`).
- **Capture time.** The metadata carries the minute-precision form time `yyyy-MM-dd HH:mm`. Only the file-name stamp has seconds, and it is read per image.
- **Blank detail under direct entry.** A detail of only spaces picked by typing in the sheet's direct-entry field stays when the "직접입력" chip is tapped, while that chip's own field shows empty. The camera button tests `detail != ""`, so it commits the blank detail (`Settings.RunKeepsConsistent`, `Settings.OpenCamera`).
- **Location.** The location is tested with `isBlank`, so a location of only whitespace also drops its segment (`Naming.FileName`, `Naming.BasePath`).

## Left out

- Coroutines and dispatchers (`viewModelScope.launch`, `Dispatchers.IO`/`Main`): the batch is a plain sequential loop with one result delivery.
- `Commit.SaveCapturedImages`: the model keeps one session for the whole batch. The code reads the handle list only when the batch starts, for its size and for the loop (model/PhotoSettingViewModel.kt:51, :55), with no suspension in between, but `saveSingleImage` reads the location, part, detail, base path, site and time again for every image (:76-80, :88, :110-113). So fields committed while a save runs reach the later images of that batch.
- `Commit.SaveSingleImage`: `contentResolver.insert` is outside the `try`, and the fault oracle models only its `null` return (`insertFails`). An insert that throws ends the coroutine with no result delivered, and the model does not cover that.
- `Commit.SavedEntryContents`: a saved row's `content` is the copied image bytes. In the code, `exif.saveAttributes()` rewrites the file to embed the tag. The model keeps the tag in a separate `description` column and does not model the rewritten JPEG bytes.
- CameraX, flash, the shutter sound, permissions and temporary files: the camera only contributes `addPhoto` calls, modelled by `SessionState.CaptureAll`.
- Compose layout, focus requests, toasts, sheet visibility, colours and the back arrows: only the state the buttons change is modelled. The preview's "저장" button only shows a placeholder toast, so it changes nothing and is not modelled.
- The image store's internals: insertion always gets a fresh id, deletion always succeeds, the `update` row count is ignored, and display-name collisions with older rows are not resolved by the store. Failures enter only through the per-position fault oracle.
- `SimpleDateFormat`, `Locale.getDefault()` and the wall clock. Timestamps are parameters: one `yyyyMMdd-HHmmss` string per batch position for file names, and the minute-precision form time. `Clock` renders ASCII digits for valid instants with four-digit years only.
- The form time `currentTime` is recomputed on every recomposition. The model takes the value current when the camera button is pressed as the `now` parameter of `Settings.OpenCamera`.
- `Base64.DEFAULT` wraps its output into 76-character lines. That is library behaviour; the encoder here emits one line, and the decoder skips line breaks wherever they are (`Base64.LineBreakIgnored`). So the tag reads back however it is wrapped (`Metadata.WrappedDescriptionReads`).
- `Json`: a writer for string-valued members plus a reader for exactly the text it writes, not a general JSON parser.
- `Utf8`: Dafny characters are Unicode scalar values, so the replacement of unpaired surrogates by `toByteArray()` does not arise.
- `Naming.RelativePath` models the `java.io.File` Unix path rules (repeated '/' collapsed, closing '/' dropped). So the recorded relative path equals the shown `Pictures/` + base path without its closing '/'. `Naming.SavedWhereShown` states the equality with that '/' added back, and only when no folder segment is empty or holds a '/'.
- `Settings.InitialSelection`: the `?: ""` fallback of `firstOrNull()` is unreachable (the display list always has at least "직접입력"), so it is not modelled.
- `Settings.Step`: the site sheet is modelled by its confirm (`PickSite`); its cancel and dismiss change nothing and are not events. Likewise the detail sheet's cancel and dismiss.
- `Preview.OneSaveAtATime`: the guard holds within one preview screen instance only. `isSaving` is remembered per instance (ui/proto/PhotoPreviewScreen.kt:43). Dismissing the dialog mid-save, retaking and pressing "촬영 종료" (ui/proto/CameraScreen.kt:192) builds a new preview with `isSaving` false, so a second save can start while the first runs. The first save's success then clears the new photos. `Preview.Step` has no screen re-entry event.
- `Preview.Deliver`: the result may arrive after the preview screen has been left; the model delivers it to the screen state as it then is.
- `Preview`: the session's base path is only written when the screen is drawn (`Preview.Draw`). A save from a session that was never drawn uses whatever path was last stored, initially "".
