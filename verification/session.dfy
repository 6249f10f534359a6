/** The capture session shared by the settings, camera and preview screens:
    five text fields, the captured image handles in capture order, and the
    base path last computed by the preview screen. */
module SessionState {

  /** An opaque handle to a captured image (a content or file URI). */
  datatype Uri = Uri(text: string)

  datatype Session = Session(
    siteName: string,
    location: string,
    inspectionPart: string,
    inspectionDetail: string,
    timestamp: string,
    capturedImageUris: seq<Uri>,
    basePath: string)

  /** Every field starts out empty. */
  const Initial: Session := Session("", "", "", "", "", [], "")

  /** The five text fields and the base path agree; the image list may not. */
  predicate SameFields(a: Session, b: Session) {
    && a.siteName == b.siteName
    && a.location == b.location
    && a.inspectionPart == b.inspectionPart
    && a.inspectionDetail == b.inspectionDetail
    && a.timestamp == b.timestamp
    && a.basePath == b.basePath
  }

  /** Appends one handle after those already captured. */
  function AddPhoto(s: Session, uri: Uri): (r: Session)
    ensures |r.capturedImageUris| == |s.capturedImageUris| + 1
    ensures r.capturedImageUris[..|s.capturedImageUris|] == s.capturedImageUris
    ensures r.capturedImageUris[|s.capturedImageUris|] == uri
    ensures SameFields(r, s)
  {
    s.(capturedImageUris := s.capturedImageUris + [uri])
  }

  /** Forgets every captured handle and nothing else. */
  function ClearPhotos(s: Session): (r: Session)
    ensures |r.capturedImageUris| == 0
    ensures SameFields(r, s)
  {
    s.(capturedImageUris := [])
  }

  /** The camera screen calling `addPhoto` once per shot, in shot order. */
  function CaptureAll(s: Session, shots: seq<Uri>): Session
    decreases |shots|
  {
    if |shots| == 0 then s else CaptureAll(AddPhoto(s, shots[0]), shots[1..])
  }

  /** After a run of shots the handle list is the old list followed by the
      shots in the order they were taken, and no field has changed. */
  lemma {:induction false} CaptureOrder(s: Session, shots: seq<Uri>)
    ensures CaptureAll(s, shots).capturedImageUris == s.capturedImageUris + shots
    ensures SameFields(CaptureAll(s, shots), s)
    decreases |shots|
  {
    if |shots| == 0 {
      assert s.capturedImageUris + shots == s.capturedImageUris;
    } else {
      var s1 := AddPhoto(s, shots[0]);
      CaptureOrder(s1, shots[1..]);
      assert s1.capturedImageUris == s.capturedImageUris + [shots[0]];
      assert s.capturedImageUris + [shots[0]] + shots[1..] == s.capturedImageUris + shots;
    }
  }

  /** Clearing after any run of shots is the same as clearing before it. */
  lemma ClearForgetsShots(s: Session, shots: seq<Uri>)
    ensures ClearPhotos(CaptureAll(s, shots)) == ClearPhotos(s)
  {
    CaptureOrder(s, shots);
  }
}
