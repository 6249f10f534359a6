/** The shooting-settings form: the site, an optional location, an inspection
    part chosen among fixed chips, and a detail picked from a catalogue sheet
    or typed in. Its camera button commits the form into the session. */
module Settings {
  import opened Basics
  import opened Text
  import opened SessionState
  import Naming
  import Clock

  /** The chip and the catalogue entry that switch to typing the value. */
  const DirectEntry: string := "직접입력"

  /** The part the form starts with and returns to on reselection. */
  const DefaultChip: string := "상부"

  /** The parts that have a catalogue of details. */
  const Categories: seq<string> := ["상부", "하부", "받침", "케이블", "2차부재", "기타부재", "공중"]

  /** The chips in the order they are laid out. */
  const Chips: seq<string> := Categories + [DirectEntry]

  /** The sites the site sheet offers. */
  const Sites: seq<string> := ["장흥교", "장형교", "전조1교"]

  lemma SiteNotBlank(i: nat)
    requires i < |Sites|
    ensures !IsBlank(Sites[i]) && Naming.SlashFree(Sites[i])
  {
    assert !IsWhitespace(Sites[i][0]);
  }

  // ---------------------------------------------------------------------
  // The detail catalogue.

  /** Each part's details, in the order the sheet lists them. */
  const SuperstructureCatalogue: seq<string> := ["바닥판", "거더"]
  const SubstructureCatalogue: seq<string> := ["교대", "교각", "주탑", "기초"]
  const BearingCatalogue: seq<string> := ["교량받침"]
  const CableCatalogue: seq<string> := ["케이블", "정착구", "행어밴드", "새들"]
  const SecondaryMemberCatalogue: seq<string> := ["가로보", "세로보"]
  const OtherMemberCatalogue: seq<string> := ["신축이음", "배수시설", "난간", "연석", "교면포장"]
  const AerialCatalogue: seq<string> := ["추락방지시설", "도로포장", "도로부 신축이음부", "환기구"]

  /** The details of a part, without the direct-entry item. */
  function Catalogue(category: string): seq<string> {
    if category == "상부" then SuperstructureCatalogue
    else if category == "하부" then SubstructureCatalogue
    else if category == "받침" then BearingCatalogue
    else if category == "케이블" then CableCatalogue
    else if category == "2차부재" then SecondaryMemberCatalogue
    else if category == "기타부재" then OtherMemberCatalogue
    else if category == "공중" then AerialCatalogue
    else []
  }

  /** Names that can be folder segments and are not the direct-entry item. */
  ghost predicate PlainDetails(ds: seq<string>) {
    forall i :: 0 <= i < |ds| ==> ds[i] != "" && ds[i] != DirectEntry && Naming.SlashFree(ds[i])
  }

  lemma CataloguePlain(category: string)
    ensures PlainDetails(Catalogue(category))
    ensures |Catalogue(category)| > 0 <==> category in Categories
  {
    if category == "상부" {
      SuperstructurePlain();
    } else if category == "하부" {
      SubstructurePlain();
    } else if category == "받침" {
      BearingPlain();
    } else if category == "케이블" {
      CablePlain();
    } else if category == "2차부재" {
      SecondaryMemberPlain();
    } else if category == "기타부재" {
      OtherMemberPlain();
    } else if category == "공중" {
      AerialPlain();
    }
  }

  lemma SuperstructurePlain()
    ensures PlainDetails(SuperstructureCatalogue)
  {
  }

  lemma SubstructurePlain()
    ensures PlainDetails(SubstructureCatalogue)
  {
  }

  lemma BearingPlain()
    ensures PlainDetails(BearingCatalogue)
  {
  }

  lemma CablePlain()
    ensures PlainDetails(CableCatalogue)
  {
  }

  lemma SecondaryMemberPlain()
    ensures PlainDetails(SecondaryMemberCatalogue)
  {
  }

  lemma OtherMemberPlain()
    ensures PlainDetails(OtherMemberCatalogue)
  {
  }

  lemma AerialPlain()
    ensures PlainDetails(AerialCatalogue)
  {
  }

  /** The details listed for a part. A known part lists its details and
      then the direct-entry item; any other text lists nothing. */
  function DetailItems(category: string): (items: seq<string>)
    ensures |items| > 0 <==> category in Categories
    ensures |items| > 0 ==> items[|items| - 1] == DirectEntry
    ensures forall i :: 0 <= i < |items| - 1 ==> items[i] != DirectEntry
    ensures forall i :: 0 <= i < |items| ==> items[i] != "" && Naming.SlashFree(items[i])
  {
    CataloguePlain(category);
    var ds := Catalogue(category);
    if |ds| > 0 then ds + [DirectEntry] else []
  }

  /** The catalogue followed by one more direct-entry item; only its first
      element is used, as the sheet's initial selection. */
  function DisplayItems(category: string): seq<string> {
    DetailItems(category) + [DirectEntry]
  }

  /** The item selected when the sheet opens: the first catalogue item of a
      known part, the direct-entry item for any other part. */
  function InitialSelection(category: string): (sel: string)
    ensures category in Categories ==> sel == DetailItems(category)[0] && sel != DirectEntry
    ensures category !in Categories ==> sel == DirectEntry
    ensures sel in DisplayItems(category)
  {
    DisplayItems(category)[0]
  }

  /** The part a catalogue detail is listed under, "" for any other text:
      the catalogue read backwards. */
  function PartOf(detail: string): string {
    if detail in SuperstructureCatalogue then "상부"
    else if detail in SubstructureCatalogue then "하부"
    else if detail in BearingCatalogue then "받침"
    else if detail in CableCatalogue then "케이블"
    else if detail in SecondaryMemberCatalogue then "2차부재"
    else if detail in OtherMemberCatalogue then "기타부재"
    else if detail in AerialCatalogue then "공중"
    else ""
  }

  /** Every catalogue detail other than the direct-entry item is listed
      under exactly the part `PartOf` names. */
  lemma CatalogueAgreesWithPartOf(a: string, i: nat)
    requires i < |DetailItems(a)| && DetailItems(a)[i] != DirectEntry
    ensures PartOf(DetailItems(a)[i]) == a
  {
    var d := DetailItems(a)[i];
    if a == "상부" {
      assert d in SuperstructureCatalogue;
      SuperstructureDetails(d);
    } else if a == "하부" {
      assert d in SubstructureCatalogue;
      SubstructureDetails(d);
    } else if a == "받침" {
      assert d in BearingCatalogue;
      BearingDetails(d);
    } else if a == "케이블" {
      assert d in CableCatalogue;
      CableDetails(d);
    } else if a == "2차부재" {
      assert d in SecondaryMemberCatalogue;
      SecondaryMemberDetails(d);
    } else if a == "기타부재" {
      assert d in OtherMemberCatalogue;
      OtherMemberDetails(d);
    } else {
      assert d in AerialCatalogue;
      AerialDetails(d);
    }
  }

  /** Each part's own details lead back to it under `PartOf`. */
  lemma SuperstructureDetails(d: string)
    requires d in SuperstructureCatalogue
    ensures PartOf(d) == "상부"
  {
  }

  lemma SubstructureDetails(d: string)
    requires d in SubstructureCatalogue
    ensures PartOf(d) == "하부"
  {
  }

  lemma BearingDetails(d: string)
    requires d in BearingCatalogue
    ensures PartOf(d) == "받침"
  {
  }

  lemma CableDetails(d: string)
    requires d in CableCatalogue
    ensures PartOf(d) == "케이블"
  {
  }

  lemma SecondaryMemberDetails(d: string)
    requires d in SecondaryMemberCatalogue
    ensures PartOf(d) == "2차부재"
  {
  }

  lemma OtherMemberDetails(d: string)
    requires d in OtherMemberCatalogue
    ensures PartOf(d) == "기타부재"
  {
  }

  lemma AerialDetails(d: string)
    requires d in AerialCatalogue
    ensures PartOf(d) == "공중"
  {
  }

  /** Apart from the direct-entry item, no detail is listed under two parts,
      so a catalogue detail names its part. */
  lemma DetailNamesItsPart(a: string, b: string, i: nat, j: nat)
    requires i < |DetailItems(a)| && j < |DetailItems(b)|
    requires DetailItems(a)[i] == DetailItems(b)[j] != DirectEntry
    ensures a == b
  {
    CatalogueAgreesWithPartOf(a, i);
    CatalogueAgreesWithPartOf(b, j);
  }

  // ---------------------------------------------------------------------
  // The detail sheet.

  /** The open sheet: the part it lists, the selected item and the text of
      its direct-entry field. */
  datatype Sheet = Sheet(category: string, selection: string, text: string)

  datatype SheetEvent =
    | ClickItem(index: nat)
    | TypeText(text: string)

  /** The selection is an item the sheet can show, and the text field holds
      text only while the direct-entry item is selected. */
  predicate SheetOk(sh: Sheet) {
    && sh.selection in DisplayItems(sh.category)
    && (sh.selection != DirectEntry ==> sh.text == "")
  }

  function OpenSheet(category: string): (sh: Sheet)
    ensures SheetOk(sh) && sh.category == category
  {
    Sheet(category, InitialSelection(category), "")
  }

  /** One press or edit. Only catalogue items have a button, and the text
      field takes input only while the direct-entry item is selected. */
  function SheetStep(sh: Sheet, e: SheetEvent): (r: Sheet)
    ensures r.category == sh.category
    ensures SheetOk(sh) ==> SheetOk(r)
    ensures e.ClickItem? && e.index < |DetailItems(sh.category)| ==> r.selection == DetailItems(sh.category)[e.index]
    ensures e.ClickItem? && e.index < |DetailItems(sh.category)| && r.selection != DirectEntry ==> r.text == ""
    ensures e.ClickItem? && e.index < |DetailItems(sh.category)| && r.selection == DirectEntry ==> r.text == sh.text
    ensures e.ClickItem? && e.index >= |DetailItems(sh.category)| ==> r == sh
    ensures e.TypeText? && sh.selection == DirectEntry ==> r.selection == DirectEntry && r.text == e.text
    ensures e.TypeText? && sh.selection != DirectEntry ==> r == sh
  {
    match e
    case ClickItem(i) =>
      var items := DetailItems(sh.category);
      if i < |items| then
        var item := items[i];
        Sheet(sh.category, item, if item != DirectEntry then "" else sh.text)
      else sh
    case TypeText(t) =>
      if sh.selection == DirectEntry then sh.(text := t) else sh
  }

  function SheetRun(sh: Sheet, es: seq<SheetEvent>): Sheet
    decreases |es|
  {
    if |es| == 0 then sh else SheetRun(SheetStep(sh, es[0]), es[1..])
  }

  /** The value the confirm button hands back: the typed text when the
      direct-entry item is selected, the selected catalogue item otherwise. */
  function SheetResult(sh: Sheet): (r: string)
    requires SheetOk(sh)
    ensures sh.selection == DirectEntry ==> r == sh.text
    ensures sh.selection != DirectEntry ==> r in DetailItems(sh.category) && r != "" && Naming.SlashFree(r)
  {
    if sh.selection == DirectEntry then sh.text else sh.selection
  }

  /** Whatever is clicked or typed after opening, the sheet stays
      consistent, so its result is a catalogue detail of the part or text
      the user typed. */
  lemma {:induction false} SheetRunKeepsOk(sh: Sheet, es: seq<SheetEvent>)
    requires SheetOk(sh)
    ensures SheetOk(SheetRun(sh, es)) && SheetRun(sh, es).category == sh.category
    decreases |es|
  {
    if |es| > 0 {
      SheetRunKeepsOk(SheetStep(sh, es[0]), es[1..]);
    }
  }

  /** Confirming a sheet that was opened and left alone gives the first
      catalogue item of a known part, and the empty text for any other. */
  lemma ConfirmRightAway(category: string)
    ensures category in Categories ==> SheetResult(OpenSheet(category)) == DetailItems(category)[0]
    ensures category !in Categories ==> SheetResult(OpenSheet(category)) == ""
  {
  }

  /** Selecting the direct-entry item, the last button of a known part's
      sheet, and typing some text makes that text the sheet's result. */
  lemma TypedTextIsResult(category: string, t: string)
    requires category in Categories
    ensures |DetailItems(category)| > 0
    ensures var done := SheetRun(OpenSheet(category), [ClickItem(|DetailItems(category)| - 1), TypeText(t)]);
      SheetOk(done) && SheetResult(done) == t
  {
    CataloguePlain(category);
    var items := DetailItems(category);
    var sh := OpenSheet(category);
    var es := [ClickItem(|items| - 1), TypeText(t)];
    var clicked := SheetStep(sh, es[0]);
    var typed := SheetStep(clicked, TypeText(t));
    assert es[1..] == [TypeText(t)];
    assert SheetRun(clicked, [TypeText(t)]) == typed by {
      assert [TypeText(t)][1..] == [];
    }
    assert SheetRun(sh, es) == typed;
    SheetRunKeepsOk(sh, es);
  }

  // ---------------------------------------------------------------------
  // The form.

  datatype Form = Form(siteName: string, location: string, chip: string, directInput: string, detail: string)

  /** What every reachable form satisfies: the site is not blank (the home
      screen only comes here with one), the chip is one of the chips, the
      direct-entry field is empty unless its chip is selected, and while it
      is selected the detail is what was typed there (or still the blank
      detail the form had before). */
  predicate Consistent(f: Form) {
    && !IsBlank(f.siteName)
    && f.chip in Chips
    && (f.chip != DirectEntry ==> f.directInput == "")
    && (f.chip == DirectEntry ==> f.detail == f.directInput || (f.directInput == "" && IsBlank(f.detail)))
  }

  /** The chips, the direct-entry field and the sheet button are on screen
      while the direct-entry chip is selected or no detail has been chosen;
      otherwise the chosen part and detail are shown with a reselect button. */
  predicate ChipsShown(f: Form) {
    f.chip == DirectEntry || IsBlank(f.detail)
  }

  /** The sheet button is enabled for every chip but direct entry, and
      opens the sheet when the chip is not empty. */
  predicate SheetOpens(f: Form) {
    ChipsShown(f) && f.chip != DirectEntry && f.chip != ""
  }

  /** The camera button is enabled exactly when a detail has been chosen. */
  predicate CameraEnabled(f: Form) {
    f.detail != ""
  }

  /** The form as it first appears for a site. */
  function Start(siteName: string): (f: Form)
    requires !IsBlank(siteName)
    ensures Consistent(f) && ChipsShown(f) && !CameraEnabled(f)
    ensures f.siteName == siteName && f.chip == DefaultChip
  {
    Form(siteName, "", DefaultChip, "", "")
  }

  /** Tapping a chip selects it. Leaving the direct-entry chip for another
      forgets the detail; selecting any chip but direct entry empties the
      direct-entry field. */
  function TapChip(f: Form, item: string): (r: Form)
    ensures r.chip == item && r.siteName == f.siteName && r.location == f.location
    ensures item != DirectEntry ==> r.directInput == ""
    ensures item == DirectEntry ==> r.directInput == f.directInput
    ensures f.chip == DirectEntry && item != DirectEntry ==> r.detail == ""
    ensures f.chip != DirectEntry || item == DirectEntry ==> r.detail == f.detail
  {
    var detail := if f.chip == DirectEntry && item != DirectEntry then "" else f.detail;
    Form(f.siteName, f.location, item, if item != DirectEntry then "" else f.directInput, detail)
  }

  /** Typing in the direct-entry field sets the detail to the typed text. */
  function TypeDirect(f: Form, text: string): (r: Form)
    ensures r.directInput == text && r.detail == text
    ensures r.siteName == f.siteName && r.location == f.location && r.chip == f.chip
  {
    f.(directInput := text, detail := text)
  }

  /** Reselecting forgets the detail and returns to the default chip; the
      direct-entry field is left as it is. */
  function Reselect(f: Form): (r: Form)
    ensures r.detail == "" && r.chip == DefaultChip
    ensures r.siteName == f.siteName && r.location == f.location && r.directInput == f.directInput
  {
    f.(detail := "", chip := DefaultChip)
  }

  datatype Event =
    | EditLocation(text: string)
    | PickSite(index: nat)
    | ChipTapped(item: string)
    | DirectTyped(text: string)
    | DetailChosen(sheet: Sheet)
    | ReselectPressed

  /** One user action, taking effect only through a control that is on
      screen and enabled: the chips and the direct-entry field while
      `ChipsShown`, the field only under its own chip, the sheet only when
      `SheetOpens` and for the selected chip, reselection otherwise. */
  function Step(f: Form, e: Event): (r: Form)
    ensures Consistent(f) ==> Consistent(r)
    ensures e.DetailChosen? && SheetOpens(f) && e.sheet.category == f.chip && SheetOk(e.sheet)
      ==> r.detail == SheetResult(e.sheet)
  {
    match e
    case EditLocation(t) => f.(location := t)
    case PickSite(i) => if i < |Sites| then SiteNotBlank(i); f.(siteName := Sites[i]) else f
    case ChipTapped(item) => if item in Chips && ChipsShown(f) then TapChip(f, item) else f
    case DirectTyped(t) => if ChipsShown(f) && f.chip == DirectEntry then TypeDirect(f, t) else f
    case DetailChosen(sh) =>
      if SheetOpens(f) && sh.category == f.chip && SheetOk(sh) then f.(detail := SheetResult(sh)) else f
    case ReselectPressed => if !ChipsShown(f) then Reselect(f) else f
  }

  function Run(f: Form, es: seq<Event>): Form
    decreases |es|
  {
    if |es| == 0 then f else Run(Step(f, es[0]), es[1..])
  }

  /** Every form reached from the start by any actions is consistent. */
  lemma {:induction false} RunKeepsConsistent(f: Form, es: seq<Event>)
    requires Consistent(f)
    ensures Consistent(Run(f, es))
    decreases |es|
  {
    if |es| > 0 {
      RunKeepsConsistent(Step(f, es[0]), es[1..]);
    }
  }

  /** Under the direct-entry chip, a detail that is not blank is exactly the
      text in the direct-entry field. */
  lemma TypedDetailIsField(f: Form)
    requires Consistent(f) && f.chip == DirectEntry && !IsBlank(f.detail)
    ensures f.detail == f.directInput
  {
  }

  // ---------------------------------------------------------------------
  // Opening the camera.

  /** The camera button: with a detail chosen it writes the site, location,
      time, part and detail into the session and forgets the captured
      images, leaving the base path as it was; without one it is disabled. */
  function OpenCamera(f: Form, s: Session, now: string): (r: Option<Session>)
    ensures r.Some? <==> CameraEnabled(f)
    ensures r.Some? ==> && r.value.siteName == f.siteName && r.value.location == f.location
                        && r.value.timestamp == now && r.value.inspectionPart == f.chip
                        && r.value.inspectionDetail == f.detail
                        && r.value.capturedImageUris == [] && r.value.basePath == s.basePath
  {
    if f.detail == "" then None
    else
      var t := s.(siteName := f.siteName, location := f.location, timestamp := now,
                  inspectionPart := f.chip, inspectionDetail := f.detail);
      Some(ClearPhotos(t))
  }

  /** The time shown on the form is `yyyy-MM-dd HH:mm`, so the date part the
      folder uses is its first ten characters, `yyyy-MM-dd`, and holds no
      '/'. */
  lemma DateOfFormTime(t: Clock.Instant)
    requires Clock.Valid(t)
    ensures Naming.DatePart(Clock.MinuteStamp(t)) == Clock.DateStamp(t)
    ensures Naming.DatePart(Clock.MinuteStamp(t)) == Clock.MinuteStamp(t)[..10]
    ensures Naming.SlashFree(Naming.DatePart(Clock.MinuteStamp(t)))
    ensures |Naming.DatePart(Clock.MinuteStamp(t))| == 10
  {
    var m := Clock.MinuteStamp(t);
    Clock.MinuteStampIsWellFormed(t);
    Clock.DateOfMinuteStamp(m);
    Clock.DateOfInstant(t);
    var d := m[..10];
    forall k | 0 <= k < 10
      ensures d[k] != '/'
    {
      assert IsDigit(m[k]) || k == 4 || k == 7;
    }
  }

  lemma ChipIsSegment(chip: string)
    requires chip in Chips
    ensures chip != "" && Naming.SlashFree(chip)
  {
  }

  lemma FieldsMakeCleanSegments(c: Session)
    requires c.siteName != "" && Naming.SlashFree(c.siteName)
    requires |Naming.DatePart(c.timestamp)| > 0 && Naming.SlashFree(Naming.DatePart(c.timestamp))
    requires Naming.SlashFree(c.location)
    requires c.inspectionPart != "" && Naming.SlashFree(c.inspectionPart)
    requires c.inspectionDetail != "" && Naming.SlashFree(c.inspectionDetail)
    ensures Naming.CleanSegments(c)
  {
    assert !IsBlank(c.location) ==> |c.location| > 0;
  }

  /** A session committed from a consistent form at a well-formed time, with
      no '/' in the site, location or typed detail, has every folder segment
      present and clean, so its images are saved in the folder the preview
      shows. */
  lemma CommittedSessionFolder(f: Form, s: Session, t: Clock.Instant)
    requires Consistent(f) && CameraEnabled(f) && Clock.Valid(t)
    requires Naming.SlashFree(f.siteName) && Naming.SlashFree(f.location) && Naming.SlashFree(f.detail)
    ensures OpenCamera(f, s, Clock.MinuteStamp(t)).Some?
    ensures Naming.CleanSegments(OpenCamera(f, s, Clock.MinuteStamp(t)).value)
    ensures var c := OpenCamera(f, s, Clock.MinuteStamp(t)).value;
      Naming.RelativePath(Naming.BasePath(c)) + "/" == Naming.Pictures + "/" + Naming.BasePath(c)
  {
    var now := Clock.MinuteStamp(t);
    var c := OpenCamera(f, s, now).value;
    assert c.siteName == f.siteName && c.location == f.location && c.timestamp == now;
    assert c.inspectionPart == f.chip && c.inspectionDetail == f.detail;
    assert |Naming.DatePart(now)| > 0 && Naming.SlashFree(Naming.DatePart(now)) by {
      DateOfFormTime(t);
    }
    assert f.siteName != "" by {
      assert !IsBlank(f.siteName);
    }
    ChipIsSegment(f.chip);
    FieldsMakeCleanSegments(c);
    Naming.SavedWhereShown(c);
  }
}
