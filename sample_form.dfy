/** Seeding of the sample "Equipment Inspection Form" template. */
module SampleForm {
  import opened Wrappers
  import opened JsValue
  import opened FormTypes
  import opened FormTemplates
  import Table

  const SampleName := "Equipment Inspection Form"

  predicate HasName(t: FormTemplate, name: string) {
    t.name == name
  }

  /** A field with only the properties the sample sets; the rest read as absent. */
  function Plain(fieldType: FieldType, labelText: string, name: string, required: bool, order: int, helpText: Option<string>): Field {
    Field(None, fieldType, labelText, name, required, order, helpText, Undefined, [], false, None, None, false, None, false, None)
  }

  function Opt(labelText: string, value: string): SelectOption {
    SelectOption(labelText, value)
  }

  const ConditionOptions: seq<SelectOption> := [
    Opt("Excellent", "excellent"), Opt("Good", "good"), Opt("Fair", "fair"),
    Opt("Poor", "poor"), Opt("Unserviceable", "unserviceable")]

  const InspectionPointOptions: seq<SelectOption> := [
    Opt("Physical damage", "physicalDamage"), Opt("Electrical components", "electricalComponents"),
    Opt("Safety mechanisms", "safetyMechanisms"), Opt("Fluid levels", "fluidLevels"),
    Opt("Calibration", "calibration"), Opt("Lubrication", "lubrication"),
    Opt("Moving parts", "movingParts"), Opt("Warning labels", "warningLabels"),
    Opt("Documentation", "documentation")]

  const DueOptions: seq<SelectOption> := [
    Opt("1 month", "1month"), Opt("3 months", "3months"), Opt("6 months", "6months"), Opt("1 year", "1year")]

  /** The seventeen sample fields, with the options attached afterwards to the radio,
      checkbox and select fields. */
  function SampleFields(): (fs: seq<Field>)
    ensures |fs| == 17
  {
    [ Plain(Text, "Inspector Name", "inspectorName", true, 1, Some("Enter the full name of the inspector")),
      Plain(Text, "Location", "location", true, 2, None),
      Plain(Date, "Inspection Date", "inspectionDate", true, 3, None),
      Plain(Section, "Equipment Details", "equipmentDetails", false, 4, None),
      Plain(Text, "Equipment ID", "equipmentId", true, 5, None),
      Plain(Text, "Equipment Name", "equipmentName", true, 6, None),
      Plain(Text, "Manufacturer", "manufacturer", false, 7, None),
      Plain(Text, "Model Number", "modelNumber", false, 8, None),
      Plain(Text, "Serial Number", "serialNumber", false, 9, None),
      Plain(Section, "Inspection Items", "inspectionItems", false, 10, Some("Check all items that apply")),
      Plain(Radio, "Overall Condition", "overallCondition", true, 11, Some("Rate the overall condition of the equipment"))
        .(defaultValue := Str("good"),
          validations := [ValidationRule(RequiredRule, Undefined, "Please rate the overall condition")],
          options := Some(ConditionOptions)),
      Plain(Checkbox, "Inspection Points", "inspectionPoints", true, 12, Some("Check all items that have been inspected"))
        .(defaultValue := List([]), options := Some(InspectionPointOptions), allowOther := true),
      Plain(Textarea, "Issues Found", "issuesFound", false, 13, Some("Describe any issues found during the inspection")),
      Plain(Textarea, "Corrective Actions", "correctiveActions", false, 14, None)
        .(conditionalDisplay := Some(ConditionalRule("issuesFound", NotEquals, Str("")))),
      Plain(Select, "Next Inspection Due", "nextInspectionDue", true, 15, Some("When is the next inspection due?"))
        .(options := Some(DueOptions)),
      Plain(Image, "Equipment Photos", "equipmentPhotos", false, 16, Some("Add photos of the equipment (optional)")),
      Plain(Signature, "Inspector Signature", "inspectorSignature", true, 17, Some("Sign to verify this inspection"))
    ]
  }

  function Orders(fs: seq<Field>): (os: seq<int>)
    ensures |os| == |fs| && forall i :: 0 <= i < |fs| ==> os[i] == fs[i].order
  {
    seq(|fs|, i requires 0 <= i < |fs| => fs[i].order)
  }

  /** The fields are numbered 1 to 17 in list order. */
  lemma SampleOrders()
    ensures forall i :: 0 <= i < |SampleFields()| ==> SampleFields()[i].order == i + 1
  {
    assert Orders(SampleFields()) == [1, 2, 3, 4, 5, 6, 7, 8, 9, 10, 11, 12, 13, 14, 15, 16, 17];
  }

  /** No sample field is hidden, and only the three choice fields carry options. */
  lemma SampleFlags()
    ensures forall i :: 0 <= i < |SampleFields()| ==> !SampleFields()[i].isHidden
    ensures forall i :: 0 <= i < |SampleFields()| ==> (SampleFields()[i].options.Some? <==> i in {10, 11, 14})
    ensures forall i :: 0 <= i < |SampleFields()| ==> (SampleFields()[i].allowOther <==> i == 11)
  {
  }

  const SampleNames: seq<string> := [
    "inspectorName", "location", "inspectionDate", "equipmentDetails", "equipmentId",
    "equipmentName", "manufacturer", "modelNumber", "serialNumber", "inspectionItems",
    "overallCondition", "inspectionPoints", "issuesFound", "correctiveActions",
    "nextInspectionDue", "equipmentPhotos", "inspectorSignature"]

  function Names(fs: seq<Field>): (ns: seq<string>)
    ensures |ns| == |fs| && forall i :: 0 <= i < |fs| ==> ns[i] == fs[i].name
  {
    seq(|fs|, i requires 0 <= i < |fs| => fs[i].name)
  }

  lemma SampleNamesAre()
    ensures Names(SampleFields()) == SampleNames
  {
  }

  /** Length and first letter: enough to tell the sample names apart. */
  function NameKey(name: string): int {
    if name == "" then 0 else |name| * 256 + (name[0] as int)
  }

  lemma SampleNameKeysDistinct()
    ensures forall i, j :: 0 <= i < j < |SampleNames| ==> NameKey(SampleNames[i]) != NameKey(SampleNames[j])
  {
  }

  /** No two sample fields share a name, so each keys its own entry of the response data. */
  lemma SampleNamesDistinct()
    ensures forall i, j :: 0 <= i < j < |SampleFields()| ==> SampleFields()[i].name != SampleFields()[j].name
  {
    SampleNamesAre();
    SampleNameKeysDistinct();
    var fs := SampleFields();
    forall i, j | 0 <= i < j < |fs| ensures fs[i].name != fs[j].name {
      assert fs[i].name == SampleNames[i] && fs[j].name == SampleNames[j];
    }
  }

  /** The sample template as it is added; both timestamps are the seeding time. */
  function SampleTemplate(now: int): (t: FormTemplate)
    ensures t.id.None? && t.name == SampleName && t.createdAt == now && t.updatedAt == now
    ensures t.fields == SampleFields()
    ensures t.settings.allowOfflineSubmission && t.settings.requireSignature && !t.settings.allowIncomplete
    ensures t.settings.destinations.None?
  {
    FormTemplate(None, SampleName,
      "Use this form to document equipment inspections and maintenance checks",
      now, now, SampleFields(),
      FormSettings(true, true, false, true, true, true, true, Some("default"), None, None))
  }

  /** The choice fields: five condition ratings defaulting to one of them, nine
      inspection points plus "other", four due intervals; the corrective-actions field
      depends on the issues field, which comes before it. */
  lemma SampleChoices()
    ensures var fs := SampleFields();
      && fs[10].options == Some(ConditionOptions) && |ConditionOptions| == 5
      && fs[10].defaultValue == Str(ConditionOptions[1].value)
      && fs[11].options == Some(InspectionPointOptions) && |InspectionPointOptions| == 9 && fs[11].allowOther
      && fs[14].options == Some(DueOptions) && |DueOptions| == 4
      && fs[13].conditionalDisplay.Some? && fs[13].conditionalDisplay.value.dependsOn == fs[12].name
  {
  }

  /** The id of the first row (in id order) with the given name: what
      `where("name").equals(name).toArray()[0]` returns. */
  function FirstNamed(rows: map<nat, FormTemplate>, n: nat, name: string): Option<nat> {
    var ks := Table.MatchingKeys(rows, n, (t: FormTemplate) => HasName(t, name));
    if |ks| > 0 then Some(ks[0]) else None
  }

  /** FirstNamed finds a row with that name, the smallest such id, and finds
      nothing exactly when no row has the name. */
  lemma FirstNamedSpec(rows: map<nat, FormTemplate>, n: nat, name: string)
    requires forall k :: k in rows ==> k < n
    ensures FirstNamed(rows, n, name).Some? ==>
              var k := FirstNamed(rows, n, name).value;
              k in rows && rows[k].name == name &&
              forall k' :: k' in rows && rows[k'].name == name ==> k <= k'
    ensures FirstNamed(rows, n, name).None? <==> forall k :: k in rows ==> rows[k].name != name
  {
    var ks := Table.MatchingKeys(rows, n, (t: FormTemplate) => HasName(t, name));
    if |ks| > 0 {
      forall k' | k' in rows && rows[k'].name == name ensures ks[0] <= k' {
        var j :| 0 <= j < |ks| && ks[j] == k';
      }
    }
  }

  /** Adding the first row with a name under a fresh id makes it the one FirstNamed finds. */
  lemma FirstNamedAfterAdd(before: map<nat, FormTemplate>, id: nat, t: FormTemplate)
    requires forall k :: k in before ==> k < id
    requires FirstNamed(before, id, t.name).None?
    ensures FirstNamed(before[id := t.(id := Some(id))], id + 1, t.name) == Some(id)
  {
    var after := before[id := t.(id := Some(id))];
    FirstNamedSpec(before, id, t.name);
    FirstNamedSpec(after, id + 1, t.name);
    var ks := Table.MatchingKeys(after, id + 1, (x: FormTemplate) => HasName(x, t.name));
    assert id in ks;
  }

  /** `initializeSampleForm`: when a template of that name exists, its (lowest) id is
      returned and nothing is added; otherwise the sample is added under a fresh id.
      Either way the returned id is afterwards the template of that name, so seeding
      again returns the same id and adds nothing. */
  method InitializeSampleForm(store: TemplateStore, now: int) returns (id: nat)
    requires store.Valid()
    modifies store
    ensures store.Valid()
    ensures FirstNamed(old(store.rows), old(store.nextId), SampleName).Some? ==>
              && id == FirstNamed(old(store.rows), old(store.nextId), SampleName).value
              && store.rows == old(store.rows) && store.nextId == old(store.nextId)
    ensures FirstNamed(old(store.rows), old(store.nextId), SampleName).None? ==>
              && id == old(store.nextId)
              && store.rows == old(store.rows)[id := SampleTemplate(now).(id := Some(id))]
              && store.nextId == id + 1
    ensures FirstNamed(store.rows, store.nextId, SampleName) == Some(id)
  {
    var existing := Table.MatchingKeys(store.rows, store.nextId, (t: FormTemplate) => HasName(t, SampleName));
    if |existing| > 0 {
      id := existing[0];
      return;
    }
    ghost var before := store.rows;
    id := store.Add(SampleTemplate(now));
    FirstNamedAfterAdd(before, id, SampleTemplate(now));
  }
}
