/** The small record helpers of the update endpoints
    (controller/controller.js): the empty-to-null cleaning of optional fields
    in updatePwd and updateYouth, the split of a parent's full name into the
    family-composition fields in updateSenior, and the status toggle of
    editUserStatus. */
module Records {
  import opened Options
  import opened Text

  // ------------------------------------------------------- field cleaning

  /** A value of a request body field. A field that is absent from the body
      is `undefined`; `Other` stands for any non-string value (a number, a
      date, an array), which the cleaning never inspects. */
  datatype Value = Null | Str(s: string) | Other(repr: string)

  /** The optional fields updatePwd cleans. */
  const PwdFieldsToClean: seq<string> := [
    "middle_name", "place_of_birth", "spouse_name",
    "fatherFirstName", "fatherMiddleName", "fatherLastName", "fatherExtension",
    "motherFirstName", "motherMiddleName", "motherLastName",
    "employment_category", "employment_type",
    "disability_other_text", "cause_other_text"
  ]

  /** The optional fields updateYouth cleans. */
  const YouthFieldsToClean: seq<string> := [
    "sk_times", "reason", "employment_category", "employment_type", "voted_sk",
    "youth_classification_other", "youth_age_group_other"
  ]

  /** `data[f] === '' || data[f] === undefined`. */
  predicate Blank(data: map<string, Value>, f: string) {
    f !in data || data[f] == Str("")
  }

  /** The body after cleaning: a listed field that is blank becomes `null`,
      everything else keeps its value. */
  function Cleaned(data: map<string, Value>, fields: seq<string>): map<string, Value> {
    map f | f in data.Keys + (set k | k in fields) :: if f in fields && Blank(data, f) then Null else data[f]
  }

  /** `fieldsToClean.forEach(field => { if (blank) updateData[field] = null; })`. */
  method CleanFields(data: map<string, Value>, fields: seq<string>) returns (out: map<string, Value>)
    ensures out == Cleaned(data, fields)
  {
    out := data;
    for n := 0 to |fields|
      invariant out.Keys == data.Keys + (set k | k in fields[..n])
      invariant forall f :: f in out ==>
                  out[f] == (if f in fields[..n] && Blank(data, f) then Null else data[f])
    {
      var field := fields[n];
      assert fields[..n + 1] == fields[..n] + [field];
      if field !in out || out[field] == Str("") {
        out := out[field := Null];
      }
    }
    assert fields[..|fields|] == fields;
  }

  /** Cleaning turns exactly the blank listed fields into `null`, adds no
      other field, and leaves every other field, listed or not, as it was. */
  lemma CleanedSpec(data: map<string, Value>, fields: seq<string>)
    ensures forall f :: f in Cleaned(data, fields) <==> f in data || f in fields
    ensures forall f :: f in fields && Blank(data, f) ==> Cleaned(data, fields)[f] == Null
    ensures forall f :: f in data && !(f in fields && Blank(data, f)) ==> Cleaned(data, fields)[f] == data[f]
  {
  }

  /** Cleaning twice is cleaning once: after one pass no listed field is
      blank. */
  lemma CleanedIdempotent(data: map<string, Value>, fields: seq<string>)
    ensures Cleaned(Cleaned(data, fields), fields) == Cleaned(data, fields)
  {
    var once := Cleaned(data, fields);
    assert forall f :: f in fields ==> !Blank(once, f);
  }

  /** A field that is present, and is `null`, a non-empty string or a
      non-string, survives the cleaning unchanged: only `''` and `undefined`
      are rewritten. */
  lemma CleanedKeepsFilled(data: map<string, Value>, fields: seq<string>, f: string)
    requires f in data && data[f] != Str("")
    ensures f in Cleaned(data, fields) && Cleaned(data, fields)[f] == data[f]
  {
  }

  // ---------------------------------------------------- parent name split

  /** The dotted update path of one family-composition field, as in
      `family_composition.father.first_name`. */
  function FamilyKey(parent: string, field: string): string {
    "family_composition." + parent + "." + field
  }

  /** The parts of `name.trim().split(' ')`. */
  function NameParts(name: string): (parts: seq<string>)
    ensures |parts| >= 1
  {
    Split(Trim(name), ' ')
  }

  /** The handling of `father_name` / `mother_name` in updateSenior: when
      the name is truthy and its trimmed form splits on single spaces into
      at least two parts, the first part becomes the first name and the last
      part the last name, and only when there are more than two parts are
      the inner parts, joined by single spaces, the middle name. Every other
      key, a middle name already present included when there are only two
      parts, keeps its value; the three paths written are distinct
      (`FamilyKeysDistinct`), so no write overwrites another. */
  method AddParentName(updateObject: map<string, string>, parent: string, name: Option<string>)
    returns (result: map<string, string>)
    ensures !Truthy(name) || |NameParts(name.value)| < 2 ==> result == updateObject
    ensures Truthy(name) && |NameParts(name.value)| >= 2 ==>
              var parts := NameParts(name.value);
              && result.Keys == updateObject.Keys + {FamilyKey(parent, "first_name"), FamilyKey(parent, "last_name")}
                                + (if |parts| > 2 then {FamilyKey(parent, "middle_name")} else {})
              && result[FamilyKey(parent, "first_name")] == parts[0]
              && result[FamilyKey(parent, "last_name")] == parts[|parts| - 1]
              && (|parts| > 2 ==> result[FamilyKey(parent, "middle_name")] == Join(parts[1..|parts| - 1], ' '))
    ensures forall k ::
              (k in updateObject && k != FamilyKey(parent, "first_name") && k != FamilyKey(parent, "last_name")
               && (k != FamilyKey(parent, "middle_name") || !Truthy(name) || |NameParts(name.value)| <= 2))
              ==> k in result && result[k] == updateObject[k]
    ensures forall k :: k in result && k !in updateObject ==>
              k == FamilyKey(parent, "first_name") || k == FamilyKey(parent, "last_name") || k == FamilyKey(parent, "middle_name")
  {
    result := updateObject;
    if Truthy(name) {
      var parts := NameParts(name.value);
      if |parts| >= 2 {
        FamilyKeysDistinct(parent);
        result := result[FamilyKey(parent, "first_name") := parts[0]];
        result := result[FamilyKey(parent, "last_name") := parts[|parts| - 1]];
        if |parts| > 2 {
          result := result[FamilyKey(parent, "middle_name") := Join(parts[1..|parts| - 1], ' ')];
        }
      }
    }
  }

  /** The three field names give three different update paths. */
  lemma FamilyKeysDistinct(parent: string)
    ensures FamilyKey(parent, "first_name") != FamilyKey(parent, "last_name")
    ensures FamilyKey(parent, "first_name") != FamilyKey(parent, "middle_name")
    ensures FamilyKey(parent, "last_name") != FamilyKey(parent, "middle_name")
  {
    assert |FamilyKey(parent, "first_name")| == 30 + |parent|;
    assert |FamilyKey(parent, "last_name")| == 29 + |parent|;
    assert |FamilyKey(parent, "middle_name")| == 31 + |parent|;
  }

  /** Nothing of the trimmed name is lost: with two parts the first and last
      names joined by a space give it back, and with more parts first, middle
      and last joined by spaces do. No first or last name contains a
      space. */
  lemma {:induction false} NameSplitRoundTrip(name: string)
    requires |NameParts(name)| >= 2
    ensures var parts := NameParts(name);
            ' ' !in parts[0] && ' ' !in parts[|parts| - 1]
    ensures var parts := NameParts(name);
            |parts| == 2 ==> parts[0] + " " + parts[1] == Trim(name)
    ensures var parts := NameParts(name);
            |parts| > 2 ==> parts[0] + " " + Join(parts[1..|parts| - 1], ' ') + " " + parts[|parts| - 1] == Trim(name)
  {
    var parts := NameParts(name);
    JoinSplit(Trim(name), ' ');
    assert Join(parts, ' ') == parts[0] + [' '] + Join(parts[1..], ' ');
    if |parts| > 2 {
      JoinSnoc(parts[1..], ' ');
      assert parts[1..][..|parts[1..]| - 1] == parts[1..|parts| - 1];
    }
  }

  /** Joining a list of at least two strings is joining all but the last,
      then a separator, then the last. */
  lemma {:induction false} JoinSnoc(parts: seq<string>, sep: char)
    requires |parts| >= 2
    ensures Join(parts, sep) == Join(parts[..|parts| - 1], sep) + [sep] + parts[|parts| - 1]
    decreases |parts|
  {
    if |parts| > 2 {
      JoinSnoc(parts[1..], sep);
      assert parts[1..][..|parts[1..]| - 1] == parts[..|parts| - 1][1..];
    }
  }

  /** Two spaces between a first and a last name give three parts, the
      middle one empty, so the middle name is set to `''`. */
  lemma DoubleSpaceGivesEmptyMiddle(first: string, last: string)
    requires first != "" && last != "" && ' ' !in first && ' ' !in last
    requires !IsSpace(first[0]) && !IsSpace(last[|last| - 1])
    ensures NameParts(first + "  " + last) == [first, "", last]
  {
    var s := first + "  " + last;
    assert s[0] == first[0] && s[|s| - 1] == last[|last| - 1];
    assert LeadingSpace(s) == 0 && TrailingSpace(s) == 0;
    assert s[..|s|] == s;
    assert s == first + [' '] + ("" + [' '] + last);
    SplitAfter(first, "" + [' '] + last, ' ');
    SplitAfter("", last, ' ');
    SplitNoSep(last, ' ');
  }

  // --------------------------------------------------------- status toggle

  /** `existing.status === 'Inactive' ? 'Active' : 'Inactive'`; a missing
      status counts as not `'Inactive'`. */
  function NextStatus(status: Option<string>): (next: string)
    ensures next == "Active" || next == "Inactive"
    ensures next == "Active" <==> status == Some("Inactive")
  {
    if status == Some("Inactive") then "Active" else "Inactive"
  }

  /** On the two statuses the application uses, toggling twice restores
      the status; any other status, or none, is moved to `'Inactive'` and
      cycles from there. */
  lemma ToggleTwice(status: Option<string>)
    ensures status == Some("Active") || status == Some("Inactive") ==>
              NextStatus(Some(NextStatus(status))) == status.value
    ensures status != Some("Active") && status != Some("Inactive") ==>
              NextStatus(status) == "Inactive" && NextStatus(Some(NextStatus(status))) == "Active"
  {
  }
}
