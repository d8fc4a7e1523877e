/** The persona form: every control replaces one field of the profile with the value it
    produced, the age box reads its text with `parseInt` and falls back to 18, and the
    drop-downs and buttons offer fixed choices. */
module PersonaConfigurator {
  import opened Wrappers
  import opened Text
  import opened Numerals
  import opened Types

  const Countries: seq<string> := ["United States", "United Kingdom", "Germany", "Japan", "Brazil", "France"]
  const Genders: seq<string> := ["Male", "Female", "Non-binary"]
  const TechLevels: seq<Level> := [Low, Medium, High]

  /** The age used when the box does not hold a non-zero number. */
  const FallbackAge := 18

  /** One change reported by a control. */
  datatype Edit =
    | SetCountry(country: string)
    | SetAge(ageText: string)
    | SetGender(gender: string)
    | SetOccupation(occupation: string)
    | SetInterests(interests: string)
    | SetTechSavviness(level: Level)

  /** `parseInt(text) || 18`: text that does not start with a number, and a number that
      is zero, give the fallback age. */
  function AgeFromInput(text: string): (r: int)
    ensures r != 0
    ensures ParseInt(text).None? ==> r == FallbackAge
    ensures ParseInt(text).Some? && ParseInt(text).value != 0 ==> r == ParseInt(text).value
    ensures ParseInt(text) == Some(0) ==> r == FallbackAge
  {
    match ParseInt(text)
    case None => FallbackAge
    case Some(n) => if n == 0 then FallbackAge else n
  }

  /** The profile after one edit: the edited field takes the new value. */
  function Apply(p: PersonaProfile, e: Edit): (r: PersonaProfile)
    ensures r.country == (if e.SetCountry? then e.country else p.country)
    ensures r.age == (if e.SetAge? then AgeFromInput(e.ageText) else p.age)
    ensures r.gender == (if e.SetGender? then e.gender else p.gender)
    ensures r.occupation == (if e.SetOccupation? then e.occupation else p.occupation)
    ensures r.interests == (if e.SetInterests? then e.interests else p.interests)
    ensures r.techSavviness == (if e.SetTechSavviness? then e.level else p.techSavviness)
  {
    match e
    case SetCountry(c) => p.(country := c)
    case SetAge(t) => p.(age := AgeFromInput(t))
    case SetGender(g) => p.(gender := g)
    case SetOccupation(o) => p.(occupation := o)
    case SetInterests(i) => p.(interests := i)
    case SetTechSavviness(l) => p.(techSavviness := l)
  }

  /** An edit the form can produce: the drop-downs only offer their listed values. */
  predicate FormEdit(e: Edit) {
    && (e.SetCountry? ==> e.country in Countries)
    && (e.SetGender? ==> e.gender in Genders)
  }

  /** A profile whose country and gender are among the form's choices. */
  predicate Listed(p: PersonaProfile) {
    p.country in Countries && p.gender in Genders
  }

  /** The default profile is one of the form's choices, and edits made through the form
      keep the country and gender among them. */
  lemma {:induction false} FormKeepsListed(p: PersonaProfile, edits: seq<Edit>)
    requires Listed(p)
    requires forall k :: 0 <= k < |edits| ==> FormEdit(edits[k])
    ensures Listed(DefaultPersona)
    ensures Listed(ApplyAll(p, edits))
    decreases |edits|
  {
    assert DefaultPersona.country == Countries[0] && DefaultPersona.gender == Genders[1];
    if edits != [] {
      FormKeepsListed(Apply(p, edits[0]), edits[1..]);
    }
  }

  /** A run of edits, applied in order. */
  function ApplyAll(p: PersonaProfile, edits: seq<Edit>): (r: PersonaProfile)
    ensures edits == [] ==> r == p
    decreases |edits|
  {
    if edits == [] then p else ApplyAll(Apply(p, edits[0]), edits[1..])
  }

  /** The age box shows the profile's age; reading that text back gives the same age,
      except that zero reads back as the fallback. */
  lemma AgeShownReadsBack(age: int)
    ensures AgeFromInput(IntToString(age)) == (if age == 0 then FallbackAge else age)
  {
    var text := IntToString(age);
    var empty: string := [];
    assert empty + text + empty == text;
    ParseIntReadsPrinted(empty, age, empty);
    assert ParseInt(text) == Some(age);
  }

  /** Typing an age over a number keeps the digits read, whatever follows them. */
  lemma AgeIgnoresTrailingText(age: int, tail: string)
    requires age != 0
    requires tail == [] || !IsDigit(tail[0])
    ensures AgeFromInput(IntToString(age) + tail) == age
  {
    var text := IntToString(age) + tail;
    var empty: string := [];
    assert empty + IntToString(age) + tail == text;
    ParseIntReadsPrinted(empty, age, tail);
    assert ParseInt(text) == Some(age);
  }

  /** Editing a field twice keeps only the second value; editing different fields commutes. */
  lemma LastEditWins(p: PersonaProfile, a: Edit, b: Edit)
    ensures SameField(a, b) ==> Apply(Apply(p, a), b) == Apply(p, b)
    ensures !SameField(a, b) ==> Apply(Apply(p, a), b) == Apply(Apply(p, b), a)
  {
  }

  predicate SameField(a: Edit, b: Edit) {
    || (a.SetCountry? && b.SetCountry?)
    || (a.SetAge? && b.SetAge?)
    || (a.SetGender? && b.SetGender?)
    || (a.SetOccupation? && b.SetOccupation?)
    || (a.SetInterests? && b.SetInterests?)
    || (a.SetTechSavviness? && b.SetTechSavviness?)
  }

  /** The caption of a tech-savviness button. */
  function LevelCaption(l: Level): string {
    match l
    case Low => "低"
    case Medium => "中"
    case High => "高"
  }

  /** The buttons, in order, and which of them is highlighted: exactly the profile's level. */
  function TechButtons(p: PersonaProfile): (r: seq<(Level, bool)>)
    ensures |r| == 3
    ensures forall k :: 0 <= k < 3 ==> r[k].0 == TechLevels[k]
    ensures forall k :: 0 <= k < 3 ==> (r[k].1 <==> r[k].0 == p.techSavviness)
    ensures exists k :: 0 <= k < 3 && r[k].1
  {
    var r := seq(3, k requires 0 <= k < 3 => (TechLevels[k], TechLevels[k] == p.techSavviness));
    assert p.techSavviness == TechLevels[0] || p.techSavviness == TechLevels[1] || p.techSavviness == TechLevels[2];
    r
  }

  /** Pressing a button highlights that button and no other. */
  lemma PressHighlights(p: PersonaProfile, k: nat)
    requires k < 3
    ensures forall j :: 0 <= j < 3 ==>
      (TechButtons(Apply(p, SetTechSavviness(TechLevels[k])))[j].1 <==> j == k)
  {
  }
}
