/** The preview screen: it shows the folder the images will be saved in
    (and records it in the session as the base path), and offers retaking
    and saving-then-going-home behind a confirmation dialog that guards
    against starting a second save while one is running. */
module Preview {
  import opened Basics
  import opened SessionState
  import opened ImageStore
  import Naming
  import Commit

  datatype Screen = PreviewShown | HomeShown | CameraShown

  /** The session together with the screen's own state: whether a save is
      running, whether the confirmation dialog is open, and which screen is
      on top. */
  datatype View = View(session: Session, saving: bool, dialog: bool, screen: Screen)

  /** The screen as it first appears. */
  function Enter(s: Session): (v: View)
    ensures v.session == s && !v.saving && !v.dialog && v.screen == PreviewShown
  {
    View(s, false, false, PreviewShown)
  }

  /** Drawing the screen records the folder it shows, `Pictures/` followed
      by the base path, in the session; nothing else changes. */
  function Draw(v: View): (r: View)
    ensures r.session.basePath == Naming.BasePath(v.session)
    ensures r.session.capturedImageUris == v.session.capturedImageUris
    ensures r.session == v.session.(basePath := r.session.basePath)
    ensures r.saving == v.saving && r.dialog == v.dialog && r.screen == v.screen
  {
    v.(session := v.session.(basePath := Naming.BasePath(v.session)))
  }

  /** The folder text shown on the screen. */
  function ShownFolder(v: View): string {
    "Pictures/" + Naming.BasePath(v.session)
  }

  /** Drawing again changes nothing: the base path does not depend on the
      base path previously recorded. */
  lemma DrawIdempotent(v: View)
    ensures Draw(Draw(v)) == Draw(v)
    ensures ShownFolder(Draw(v)) == ShownFolder(v)
  {
    assert Naming.BasePath(Draw(v).session) == Naming.BasePath(v.session);
  }

  /** Once drawn, with every folder segment present and free of '/', the
      save files images into exactly the folder the screen shows (the path
      rules drop the closing '/'). */
  lemma DrawnFolderIsSaveFolder(v: View)
    requires Naming.CleanSegments(v.session)
    ensures Naming.RelativePath(Draw(v).session.basePath) + "/" == ShownFolder(v)
  {
    var bp := Naming.BasePath(v.session);
    assert Draw(v).session.basePath == bp;
    Naming.SavedWhereShown(v.session);
    ShownPrefix(bp);
  }

  lemma ShownPrefix(bp: string)
    requires Naming.RelativePath(bp) + "/" == Naming.Pictures + "/" + bp
    ensures Naming.RelativePath(bp) + "/" == "Pictures/" + bp
  {
    assert Naming.Pictures + "/" == "Pictures/";
  }

  /** The base path the save uses is whatever the session holds: the folder
      last drawn when the screen was drawn, the stale (initially empty) value
      otherwise. A row saved after drawing is in the shown folder. */
  lemma SavedRowInShownFolder(pl: Commit.Platform, v: View, uri: Uri, index: nat)
    requires uri in pl.sources && pl.scoped
    requires Naming.CleanSegments(v.session)
    ensures Commit.SavedEntry(pl, Draw(v).session, uri, index).relativePath.Some?
    ensures Commit.SavedEntry(pl, Draw(v).session, uri, index).relativePath.value + "/" == ShownFolder(v)
  {
    Commit.SavedEntryContents(pl, Draw(v).session, uri, index);
    DrawnFolderIsSaveFolder(v);
  }

  // ---------------------------------------------------------------------
  // The buttons and the dialog.

  /** The home button opens the confirmation dialog. */
  function PressHome(v: View): (r: View)
    ensures r.dialog && r.session == v.session && r.saving == v.saving && r.screen == v.screen
  {
    v.(dialog := true)
  }

  /** Cancelling, or tapping outside, closes the dialog; a running save
      goes on. */
  function Dismiss(v: View): (r: View)
    ensures !r.dialog && r.session == v.session && r.saving == v.saving && r.screen == v.screen
  {
    v.(dialog := false)
  }

  /** The dialog's confirm button. It starts a save only when the dialog is
      open and no save is running, and then marks a save as running; the
      second component says whether a save was started. */
  function Confirm(v: View): (r: (View, bool))
    ensures r.1 <==> v.dialog && !v.saving
    ensures r.1 ==> r.0.saving && r.0.session == v.session && r.0.dialog && r.0.screen == v.screen
    ensures !r.1 ==> r.0 == v
  {
    if v.dialog && !v.saving then (v.(saving := true), true) else (v, false)
  }

  /** The result of a save arrives: the save is no longer running and the
      dialog closes. On success the photos are forgotten and the home screen
      comes up; on failure the session and screen stay as they were. */
  function Deliver(v: View, ok: bool): (r: View)
    ensures !r.saving && !r.dialog
    ensures ok ==> |r.session.capturedImageUris| == 0 && SameFields(r.session, v.session) && r.screen == HomeShown
    ensures !ok ==> r.session == v.session && r.screen == v.screen
  {
    var closed := v.(saving := false, dialog := false);
    if ok then closed.(session := ClearPhotos(v.session), screen := HomeShown) else closed
  }

  /** Retake forgets the photos and returns to the camera; no field of the
      session changes. */
  function Retake(v: View): (r: View)
    ensures |r.session.capturedImageUris| == 0 && SameFields(r.session, v.session)
    ensures r.screen == CameraShown && r.saving == v.saving && r.dialog == v.dialog
  {
    v.(session := ClearPhotos(v.session), screen := CameraShown)
  }

  datatype Action =
    | Redraw
    | HomePressed
    | DialogDismissed
    | ConfirmPressed
    | ResultArrived(ok: bool)
    | RetakePressed

  /** One action. The bottom bar answers only while the preview is on top
      and no dialog covers it; the dialog's buttons only while it is open.
      The second component says whether a save was started. */
  function Step(v: View, a: Action): (r: (View, bool))
    ensures r.1 ==> a.ConfirmPressed? && !v.saving && r.0.saving
    ensures !a.ResultArrived? && v.saving ==> r.0.saving
  {
    match a
    case Redraw => (if v.screen == PreviewShown then Draw(v) else v, false)
    case HomePressed => (if v.screen == PreviewShown && !v.dialog then PressHome(v) else v, false)
    case DialogDismissed => (if v.dialog then Dismiss(v) else v, false)
    case ConfirmPressed => Confirm(v)
    case ResultArrived(ok) => (Deliver(v, ok), false)
    case RetakePressed => (if v.screen == PreviewShown && !v.dialog then Retake(v) else v, false)
  }

  function Run(v: View, acts: seq<Action>): View
    decreases |acts|
  {
    if |acts| == 0 then v else Run(Step(v, acts[0]).0, acts[1..])
  }

  /** How many saves a run of actions starts. */
  function Starts(v: View, acts: seq<Action>): nat
    decreases |acts|
  {
    if |acts| == 0 then 0
    else (if Step(v, acts[0]).1 then 1 else 0) + Starts(Step(v, acts[0]).0, acts[1..])
  }

  predicate NoResult(acts: seq<Action>) {
    forall i :: 0 <= i < |acts| ==> !acts[i].ResultArrived?
  }

  /** Until a result arrives, however often confirm is pressed and the
      dialog dismissed and reopened, at most one save is started, none while
      one is already running, and a started save stays marked as running. */
  lemma {:induction false} OneSaveAtATime(v: View, acts: seq<Action>)
    requires NoResult(acts)
    ensures Starts(v, acts) <= 1
    ensures v.saving ==> Starts(v, acts) == 0
    ensures v.saving || Starts(v, acts) == 1 ==> Run(v, acts).saving
    decreases |acts|
  {
    if |acts| > 0 {
      var next := Step(v, acts[0]);
      assert NoResult(acts[1..]) by {
        forall i | 0 <= i < |acts[1..]|
          ensures !acts[1..][i].ResultArrived?
        {
          assert acts[1..][i] == acts[i + 1];
        }
      }
      OneSaveAtATime(next.0, acts[1..]);
    }
  }

  // ---------------------------------------------------------------------
  // Confirming with the batch save in between.

  /** A confirm press followed by the save and the delivery of its result.
      Pressed while a save runs or with the dialog closed, it changes
      nothing. Otherwise the images are saved in order, the dialog closes,
      and on success the photos are forgotten and the home screen comes up,
      while on failure the session stays as it was. */
  method ConfirmAndSave(pl: Commit.Platform, st: Store, v: View) returns (r: View, store: Store, message: string)
    ensures !(v.dialog && !v.saving) ==> r == v && store == st
    ensures v.dialog && !v.saving ==>
      var images := v.session.capturedImageUris;
      var ok := |images| > 0 && forall i :: 0 <= i < |images| ==> Commit.Succeeds(pl, images[i], i);
      && store == Commit.SavePrefix(pl, st, v.session, |images|)
      && RunFacts(st, store, |images|, Commit.Outcomes(pl, v.session), Commit.Rows(pl, v.session))
      && !r.saving && !r.dialog
      && (ok ==> |r.session.capturedImageUris| == 0 && SameFields(r.session, v.session) && r.screen == HomeShown)
      && (!ok ==> r.session == v.session && r.screen == v.screen)
      && (|images| == 0 ==> message == Commit.NothingToSave && store == st)
      && (|images| > 0 ==> message == Commit.ReportMessage(|images|, Commit.SuccessCount(pl, v.session, |images|)))
  {
    var pressed := Confirm(v);
    if !pressed.1 {
      return v, st, "";
    }
    var ok;
    store, ok, message := Commit.SaveCapturedImages(pl, st, pressed.0.session);
    r := Deliver(pressed.0, ok);
  }
}
