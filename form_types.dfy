/** The persisted shapes of the form runtime: field definitions, templates
    with their settings, and responses. They carry no behaviour of their own.
    Timestamps (`Date`) are integers (milliseconds), ids are naturals. */
module FormTypes {
  import opened Wrappers
  import opened JsValue

  /** The seventeen field kinds of a template, plus a type string outside that
      union (a template read back from storage or imported as JSON may carry one). */
  datatype FieldType =
    | Text | Number | Email | Phone | Date | Time
    | Select | Multiselect | Checkbox | Radio | Textarea
    | Signature | File | Image | Location | Section | Heading
    | Unrecognized(raw: string)

  datatype ValidationKind =
    | RequiredRule | MinLengthRule | MaxLengthRule | PatternRule | MinRule | MaxRule | EmailRule | UrlRule | CustomRule

  datatype ValidationRule = ValidationRule(kind: ValidationKind, value: Value, message: string)

  datatype ConditionalOperator =
    | EqualsOp | NotEquals | Contains | NotContains | StartsWithOp | EndsWithOp | GreaterThan | LessThan

  datatype ConditionalRule = ConditionalRule(dependsOn: string, operator: ConditionalOperator, value: Value)

  datatype SelectOption = SelectOption(labelText: string, value: string)

  /** `IFormField` with the type-specific attributes the runtime reads
      (choice options, file limits). Absent booleans read as false. */
  datatype Field = Field(
    id: Option<string>,
    fieldType: FieldType,
    labelText: string,   // `label` (a reserved word in Dafny)
    name: string,
    required: bool,
    order: int,
    helpText: Option<string>,
    defaultValue: Value,
    validations: seq<ValidationRule>,
    isHidden: bool,
    conditionalDisplay: Option<ConditionalRule>,
    options: Option<seq<SelectOption>>,
    allowOther: bool,
    maxSize: Option<int>,
    multiple: bool,
    allowedTypes: Option<seq<string>>)

  datatype DestinationType = EmailSink | ApiSink | DatabaseSink | FileSink | UnknownSink(raw: string)

  /** `IFormDestination`; its per-type `config` is opaque to the runtime. */
  datatype Destination = Destination(id: int, name: string, destinationType: DestinationType, enabled: bool)

  datatype FormSettings = FormSettings(
    allowOfflineSubmission: bool,
    requireSignature: bool,
    allowIncomplete: bool,
    showProgressBar: bool,
    autoSave: bool,
    allowImageUpload: bool,
    allowGeolocation: bool,
    theme: Option<string>,
    customCSS: Option<string>,
    destinations: Option<seq<Destination>>)

  datatype FormTemplate = FormTemplate(
    id: Option<nat>,
    name: string,
    description: string,
    createdAt: int,
    updatedAt: int,
    fields: seq<Field>,
    settings: FormSettings)

  datatype ResponseStatus = Draft | Submitted | Error | Syncing

  datatype DeviceInfo = DeviceInfo(
    deviceId: Option<string>,
    deviceModel: Option<string>,
    osVersion: Option<string>,
    appVersion: Option<string>,
    browserType: Option<string>)

  datatype LocationData = LocationData(latitude: int, longitude: int, accuracy: Option<int>, timestamp: int)

  datatype FormResponse = FormResponse(
    id: Option<nat>,
    formTemplateId: int,
    submittedAt: Option<int>,
    createdAt: int,
    updatedAt: int,
    data: map<string, Value>,
    status: ResponseStatus,
    offlineCreated: bool,
    syncedAt: Option<int>,
    deviceInfo: Option<DeviceInfo>,
    locationData: Option<LocationData>)

  /** A `Partial<IFormResponse>` as passed to `updateFormResponse`. The id is not
      updatable and `updatedAt` is always overwritten by the store. */
  datatype ResponsePatch = ResponsePatch(
    formTemplateId: Patch<int>,
    submittedAt: Patch<Option<int>>,
    createdAt: Patch<int>,
    data: Patch<map<string, Value>>,
    status: Patch<ResponseStatus>,
    offlineCreated: Patch<bool>,
    syncedAt: Patch<Option<int>>,
    deviceInfo: Patch<Option<DeviceInfo>>,
    locationData: Patch<Option<LocationData>>)

  const NoResponseChange := ResponsePatch(Keep, Keep, Keep, Keep, Keep, Keep, Keep, Keep, Keep)

  /** A `Partial<IFormTemplate>` as passed to `updateFormTemplate`. */
  datatype TemplatePatch = TemplatePatch(
    name: Patch<string>,
    description: Patch<string>,
    createdAt: Patch<int>,
    fields: Patch<seq<Field>>,
    settings: Patch<FormSettings>)

  /** The fields a record keeps after `{...record, ...patch, updatedAt: now}`. */
  function ApplyResponsePatch(r: FormResponse, p: ResponsePatch, now: int): FormResponse {
    r.(formTemplateId := p.formTemplateId.ApplyTo(r.formTemplateId),
       submittedAt := p.submittedAt.ApplyTo(r.submittedAt),
       createdAt := p.createdAt.ApplyTo(r.createdAt),
       data := p.data.ApplyTo(r.data),
       status := p.status.ApplyTo(r.status),
       offlineCreated := p.offlineCreated.ApplyTo(r.offlineCreated),
       syncedAt := p.syncedAt.ApplyTo(r.syncedAt),
       deviceInfo := p.deviceInfo.ApplyTo(r.deviceInfo),
       locationData := p.locationData.ApplyTo(r.locationData),
       updatedAt := now)
  }

  function ApplyTemplatePatch(t: FormTemplate, p: TemplatePatch, now: int): FormTemplate {
    t.(name := p.name.ApplyTo(t.name),
       description := p.description.ApplyTo(t.description),
       createdAt := p.createdAt.ApplyTo(t.createdAt),
       fields := p.fields.ApplyTo(t.fields),
       settings := p.settings.ApplyTo(t.settings),
       updatedAt := now)
  }

  /** A patch changes exactly the supplied properties, always bumps `updatedAt`,
      and never touches the id. */
  lemma ResponsePatchFrame(r: FormResponse, p: ResponsePatch, now: int)
    ensures ApplyResponsePatch(r, p, now).id == r.id
    ensures ApplyResponsePatch(r, p, now).updatedAt == now
    ensures p.status.Keep? ==> ApplyResponsePatch(r, p, now).status == r.status
    ensures p.status.Set? ==> ApplyResponsePatch(r, p, now).status == p.status.value
    ensures p.data.Keep? ==> ApplyResponsePatch(r, p, now).data == r.data
    ensures p.data.Set? ==> ApplyResponsePatch(r, p, now).data == p.data.value
    ensures p == NoResponseChange ==> ApplyResponsePatch(r, p, now) == r.(updatedAt := now)
  {
  }

  /** A template update changes exactly the supplied properties, always bumps
      `updatedAt`, and never touches the id. */
  lemma TemplatePatchFrame(t: FormTemplate, p: TemplatePatch, now: int)
    ensures ApplyTemplatePatch(t, p, now).id == t.id
    ensures ApplyTemplatePatch(t, p, now).updatedAt == now
    ensures p.name.Keep? ==> ApplyTemplatePatch(t, p, now).name == t.name
    ensures p.name.Set? ==> ApplyTemplatePatch(t, p, now).name == p.name.value
    ensures p.fields.Keep? ==> ApplyTemplatePatch(t, p, now).fields == t.fields
    ensures p.fields.Set? ==> ApplyTemplatePatch(t, p, now).fields == p.fields.value
    ensures p == TemplatePatch(Keep, Keep, Keep, Keep, Keep) ==> ApplyTemplatePatch(t, p, now) == t.(updatedAt := now)
  {
  }
}
