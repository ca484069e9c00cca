/**
 * The FluentValidation validators of the request bodies. A validator yields
 * the failures of its rules in rule order; every validator of a rule runs
 * even after an earlier one failed (the default cascade mode), and a
 * `When` condition guards the validators before it. Each validator is
 * paired with a plain predicate saying when a request is valid.
 */
module Validators {
  import opened Wrappers
  import opened Text
  import opened Entities
  import Base64

  /** A `ValidationFailure`: one failed validator of one rule. */
  datatype Failure =
    | CustomerIdRequired
    | CustomerIdTooLong
    | CustomerTypeRequired
    | CustomerTypeNotListed
    | ServiceCategoryIdNotPositive
    | ProcessTypeIdNotPositive
    | RequirementsTooLong
    | OrderedQuantityNotPositive
    | ManufacturedQuantityNegative
    | MaterialIdNotPositive
    | ColorIdNotPositive
    | SurfaceFinishingIdNotPositive
    | LeadTimeDaysNotPositive
    | PromisedDeliveryDateNotInFuture
    | AssignedEmployeeIdTooLong
    | DepartmentIdTooLong
    | VersionRequired
    | QuotedAmountNotPositive
    | QuoteCurrencyNotThreeLetters
    | StatusRequired
    | StatusNotListed
    | InternalNotesTooLong
    | CustomerNotesTooLong
    | NoteTypeRequired
    | NoteTypeNotListed
    | NoteTextRequired
    | NoteTextTooLong
    | FileRoleRequired
    | FileRoleNotListed
    | FileCategoryRequired
    | FileCategoryNotListed
    | DesignUnitsNotListed
  {
    /** `ValidationFailure.PropertyName`. */
    function PropertyName(): string {
      match this
      case CustomerIdRequired => "CustomerId"
      case CustomerIdTooLong => "CustomerId"
      case CustomerTypeRequired => "CustomerType"
      case CustomerTypeNotListed => "CustomerType"
      case ServiceCategoryIdNotPositive => "ServiceCategoryId"
      case ProcessTypeIdNotPositive => "ProcessTypeId"
      case RequirementsTooLong => "Requirements"
      case OrderedQuantityNotPositive => "OrderedQuantity"
      case ManufacturedQuantityNegative => "ManufacturedQuantity"
      case MaterialIdNotPositive => "MaterialId"
      case ColorIdNotPositive => "ColorId"
      case SurfaceFinishingIdNotPositive => "SurfaceFinishingId"
      case LeadTimeDaysNotPositive => "LeadTimeDays"
      case PromisedDeliveryDateNotInFuture => "PromisedDeliveryDate"
      case AssignedEmployeeIdTooLong => "AssignedEmployeeId"
      case DepartmentIdTooLong => "DepartmentId"
      case VersionRequired => "Version"
      case QuotedAmountNotPositive => "QuotedAmount"
      case QuoteCurrencyNotThreeLetters => "QuoteCurrency"
      case StatusRequired => "Status"
      case StatusNotListed => "Status"
      case InternalNotesTooLong => "InternalNotes"
      case CustomerNotesTooLong => "CustomerNotes"
      case NoteTypeRequired => "NoteType"
      case NoteTypeNotListed => "NoteType"
      case NoteTextRequired => "NoteText"
      case NoteTextTooLong => "NoteText"
      case FileRoleRequired => "FileRole"
      case FileRoleNotListed => "FileRole"
      case FileCategoryRequired => "FileCategory"
      case FileCategoryNotListed => "FileCategory"
      case DesignUnitsNotListed => "DesignUnits"
    }

    /** `ValidationFailure.ErrorMessage`: the rule's `WithMessage` text. */
    function ErrorMessage(): string {
      match this
      case CustomerIdRequired => "Customer ID is required"
      case CustomerIdTooLong => "Customer ID must not exceed 50 characters"
      case CustomerTypeRequired => "Customer Type is required"
      case CustomerTypeNotListed => "Customer Type must be 'Customer' or 'Employee'"
      case ServiceCategoryIdNotPositive => "Service Category ID must be greater than 0"
      case ProcessTypeIdNotPositive => "Process Type ID must be greater than 0"
      case RequirementsTooLong => "Requirements must not exceed 5000 characters"
      case OrderedQuantityNotPositive => "Ordered Quantity must be greater than 0"
      case ManufacturedQuantityNegative => "Manufactured Quantity must be greater than or equal to 0"
      case MaterialIdNotPositive => "Material ID must be greater than 0"
      case ColorIdNotPositive => "Color ID must be greater than 0"
      case SurfaceFinishingIdNotPositive => "Surface Finishing ID must be greater than 0"
      case LeadTimeDaysNotPositive => "Lead Time Days must be greater than 0"
      case PromisedDeliveryDateNotInFuture => "Promised Delivery Date must be in the future"
      case AssignedEmployeeIdTooLong => "Assigned Employee ID must not exceed 50 characters"
      case DepartmentIdTooLong => "Department ID must not exceed 50 characters"
      case VersionRequired => "Version (RowVersion) is required for optimistic concurrency"
      case QuotedAmountNotPositive => "Quoted Amount must be greater than 0"
      case QuoteCurrencyNotThreeLetters => "Quote Currency must be a 3-letter ISO currency code (e.g., THB, USD)"
      case StatusRequired => "Status is required"
      case StatusNotListed => "Status must be one of: " + Join(ValidStatuses)
      case InternalNotesTooLong => "Internal Notes must not exceed 2000 characters"
      case CustomerNotesTooLong => "Customer Notes must not exceed 2000 characters"
      case NoteTypeRequired => "Note Type is required"
      case NoteTypeNotListed => "Note Type must be one of: " + Join(ValidNoteTypes)
      case NoteTextRequired => "Note Text is required"
      case NoteTextTooLong => "Note Text must not exceed 2000 characters"
      case FileRoleRequired => "File Role is required"
      case FileRoleNotListed => "File Role must be one of: " + Join(ValidFileRoles)
      case FileCategoryRequired => "File Category is required"
      case FileCategoryNotListed => "File Category must be one of: " + Join(ValidFileCategories)
      case DesignUnitsNotListed => "Design Units must be one of: " + Join(ValidDesignUnits)
    }
  }

  /** `NotEmpty()` on a string: not null and not only white space. */
  predicate NotEmpty(s: string) {
    !IsWhiteSpaceOnly(s)
  }

  /** `string.IsNullOrEmpty`. */
  predicate IsNullOrEmpty(s: Option<string>) {
    s.None? || s.value == ""
  }

  /** One validator of a rule: no failure when it passes. */
  function Check(passes: bool, failure: Failure): (errors: seq<Failure>)
    ensures errors == [] <==> passes
    ensures errors == [] || errors == [failure]
  {
    if passes then [] else [failure]
  }

  /** `.MaximumLength(n).When(x => !string.IsNullOrEmpty(value))`. */
  function MaxLengthUnlessEmpty(s: Option<string>, n: nat, failure: Failure): (errors: seq<Failure>)
    ensures errors == [] <==> s.None? || |s.value| <= n
    ensures errors == [] || errors == [failure]
  {
    if IsNullOrEmpty(s) then [] else Check(|s.value| <= n, failure)
  }

  /** `.GreaterThan(0).When(x => value.HasValue)`. */
  function PositiveWhenPresent(v: Option<int>, failure: Failure): (errors: seq<Failure>)
    ensures errors == [] <==> v.None? || v.value > 0
    ensures errors == [] || errors == [failure]
  {
    if v.None? then [] else Check(v.value > 0, failure)
  }

  /** `string.Join(", ", values)`. */
  function Join(values: seq<string>): string
    decreases |values|
  {
    if |values| == 0 then ""
    else if |values| == 1 then values[0]
    else values[0] + ", " + Join(values[1..])
  }

  /** Every value the validators list starts with a letter. */
  predicate StartsWithLetter(s: string) {
    |s| > 0 && ('A' <= s[0] <= 'Z' || 'a' <= s[0] <= 'z')
  }

  /** A value of a list whose every value starts with a letter is not blank. */
  lemma ListedIsNotBlank(values: seq<string>, s: string)
    requires s in values && forall i :: 0 <= i < |values| ==> StartsWithLetter(values[i])
    ensures NotEmpty(s)
  {
    LetterIsNotBlank(s);
  }

  /** A word that starts with a letter is not blank, so a listed value always passes `NotEmpty`. */
  lemma LetterIsNotBlank(s: string)
    requires s == "Customer" || s == "Employee" || StartsWithLetter(s)
    ensures NotEmpty(s)
  {
    assert !IsWhiteSpace(s[0]);
  }

  // ---- CreateOrderRequestValidator ----

  /**
   * The create-order rules. `now` is the instant `DateTime.UtcNow` was read
   * when the validator was built, which the promised delivery date must
   * follow.
   */
  function CreateOrderErrors(r: CreateOrderRequest, now: int): (errors: seq<Failure>)
    ensures errors == [] <==> CreateOrderIsValid(r, now)
    ensures CustomerIdRequired in errors <==> !NotEmpty(r.customerId)
    ensures CustomerTypeNotListed in errors <==> r.customerType != "Customer" && r.customerType != "Employee"
    ensures PromisedDeliveryDateNotInFuture in errors <==>
              r.promisedDeliveryDate.Some? && r.promisedDeliveryDate.value <= now
  {
    var required, optional := CustomerRules(r), OptionalCreateRules(r, now);
    assert CustomerIdRequired in required + optional <==> CustomerIdRequired in required;
    assert CustomerTypeNotListed in required + optional <==> CustomerTypeNotListed in required;
    assert PromisedDeliveryDateNotInFuture in required + optional <==> PromisedDeliveryDateNotInFuture in optional;
    required + optional
  }

  /** The rules on the customer and the service category, which every create request must meet. */
  function CustomerRules(r: CreateOrderRequest): (errors: seq<Failure>)
    ensures errors == [] <==> && NotEmpty(r.customerId) && |r.customerId| <= 50
                              && (r.customerType == "Customer" || r.customerType == "Employee")
                              && r.serviceCategoryId > 0
    ensures CustomerIdRequired in errors <==> !NotEmpty(r.customerId)
    ensures CustomerTypeNotListed in errors <==> r.customerType != "Customer" && r.customerType != "Employee"
    ensures PromisedDeliveryDateNotInFuture !in errors
  {
    if r.customerType == "Customer" || r.customerType == "Employee" then
      LetterIsNotBlank(r.customerType);
      CustomerRulesOf(r)
    else
      CustomerRulesOf(r)
  }

  function CustomerRulesOf(r: CreateOrderRequest): seq<Failure> {
    Check(NotEmpty(r.customerId), CustomerIdRequired)
    + Check(|r.customerId| <= 50, CustomerIdTooLong)
    + Check(NotEmpty(r.customerType), CustomerTypeRequired)
    + Check(r.customerType == "Customer" || r.customerType == "Employee", CustomerTypeNotListed)
    + Check(r.serviceCategoryId > 0, ServiceCategoryIdNotPositive)
  }

  /** The rules on the optional members of a create request, each applied only when the member is given. */
  function OptionalCreateRules(r: CreateOrderRequest, now: int): (errors: seq<Failure>)
    ensures errors == [] <==>
              && PositiveOrAbsent(r.processTypeId) && PositiveOrAbsent(r.orderedQuantity) && PositiveOrAbsent(r.materialId)
              && PositiveOrAbsent(r.colorId) && PositiveOrAbsent(r.surfaceFinishingId) && PositiveOrAbsent(r.leadTimeDays)
              && (r.requirements.Some? ==> |r.requirements.value| <= 5000)
              && (r.assignedEmployeeId.Some? ==> |r.assignedEmployeeId.value| <= 50)
              && (r.departmentId.Some? ==> |r.departmentId.value| <= 50)
              && (r.promisedDeliveryDate.Some? ==> r.promisedDeliveryDate.value > now)
    ensures PromisedDeliveryDateNotInFuture in errors <==>
              r.promisedDeliveryDate.Some? && r.promisedDeliveryDate.value <= now
    ensures CustomerIdRequired !in errors && CustomerTypeNotListed !in errors
  {
    var catalogue, schedule := CatalogueRules(r), ScheduleRules(r, now);
    assert PromisedDeliveryDateNotInFuture in catalogue + schedule <==> PromisedDeliveryDateNotInFuture in schedule;
    catalogue + schedule
  }

  /** The process type, requirements, quantity, material and colour rules of a create request. */
  function CatalogueRules(r: CreateOrderRequest): (errors: seq<Failure>)
    ensures errors == [] <==>
              && PositiveOrAbsent(r.processTypeId) && PositiveOrAbsent(r.orderedQuantity) && PositiveOrAbsent(r.materialId)
              && PositiveOrAbsent(r.colorId) && (r.requirements.Some? ==> |r.requirements.value| <= 5000)
    ensures CustomerIdRequired !in errors && CustomerTypeNotListed !in errors && PromisedDeliveryDateNotInFuture !in errors
  {
    PositiveWhenPresent(r.processTypeId, ProcessTypeIdNotPositive)
    + MaxLengthUnlessEmpty(r.requirements, 5000, RequirementsTooLong)
    + PositiveWhenPresent(r.orderedQuantity, OrderedQuantityNotPositive)
    + PositiveWhenPresent(r.materialId, MaterialIdNotPositive)
    + PositiveWhenPresent(r.colorId, ColorIdNotPositive)
  }

  /** The finish, lead time, delivery date and assignment rules of a create request. */
  function ScheduleRules(r: CreateOrderRequest, now: int): (errors: seq<Failure>)
    ensures errors == [] <==>
              && PositiveOrAbsent(r.surfaceFinishingId) && PositiveOrAbsent(r.leadTimeDays)
              && (r.assignedEmployeeId.Some? ==> |r.assignedEmployeeId.value| <= 50)
              && (r.departmentId.Some? ==> |r.departmentId.value| <= 50)
              && (r.promisedDeliveryDate.Some? ==> r.promisedDeliveryDate.value > now)
    ensures PromisedDeliveryDateNotInFuture in errors <==>
              r.promisedDeliveryDate.Some? && r.promisedDeliveryDate.value <= now
    ensures CustomerIdRequired !in errors && CustomerTypeNotListed !in errors
  {
    PositiveWhenPresent(r.surfaceFinishingId, SurfaceFinishingIdNotPositive)
    + PositiveWhenPresent(r.leadTimeDays, LeadTimeDaysNotPositive)
    + (if r.promisedDeliveryDate.None? then []
       else Check(r.promisedDeliveryDate.value > now, PromisedDeliveryDateNotInFuture))
    + MaxLengthUnlessEmpty(r.assignedEmployeeId, 50, AssignedEmployeeIdTooLong)
    + MaxLengthUnlessEmpty(r.departmentId, 50, DepartmentIdTooLong)
  }

  predicate PositiveOrAbsent(v: Option<int>) {
    v.Some? ==> v.value > 0
  }

  /** A create request the validator accepts. */
  predicate CreateOrderIsValid(r: CreateOrderRequest, now: int) {
    && NotEmpty(r.customerId) && |r.customerId| <= 50
    && (r.customerType == "Customer" || r.customerType == "Employee")
    && r.serviceCategoryId > 0
    && PositiveOrAbsent(r.processTypeId) && PositiveOrAbsent(r.orderedQuantity) && PositiveOrAbsent(r.materialId)
    && PositiveOrAbsent(r.colorId) && PositiveOrAbsent(r.surfaceFinishingId) && PositiveOrAbsent(r.leadTimeDays)
    && (r.requirements.Some? ==> |r.requirements.value| <= 5000)
    && (r.assignedEmployeeId.Some? ==> |r.assignedEmployeeId.value| <= 50)
    && (r.departmentId.Some? ==> |r.departmentId.value| <= 50)
    && (r.promisedDeliveryDate.Some? ==> r.promisedDeliveryDate.value > now)
  }

  /** A request with only a valid customer, customer type and service category passes every rule. */
  lemma MinimalCreateRequestIsValid(customerId: string, customerType: string, serviceCategoryId: int,
                                    isConfidential: bool, now: int)
    requires 0 < |customerId| <= 50 && !IsWhiteSpace(customerId[0])
    requires customerType == "Customer" || customerType == "Employee"
    requires serviceCategoryId > 0
    ensures CreateOrderErrors(CreateOrderRequest(customerId, customerType, serviceCategoryId, None, None, isConfidential,
                                                 None, None, None, None, None, None, None, None), now) == []
  {
  }

  // ---- UpdateOrderRequestValidator ----

  /** The update-order rules. The version is only required to be non-blank, not to be base 64. */
  function UpdateOrderErrors(r: UpdateOrderRequest): (errors: seq<Failure>)
    ensures errors == [] <==> UpdateOrderIsValid(r)
    ensures QuoteCurrencyNotThreeLetters in errors <==>
              !IsNullOrEmpty(r.quoteCurrency) && |r.quoteCurrency.value| != 3
    ensures ManufacturedQuantityNegative in errors <==>
              r.manufacturedQuantity.Some? && r.manufacturedQuantity.value < 0
  {
    var first, second := UpdateQuantityRules(r), UpdateOtherRules(r);
    assert QuoteCurrencyNotThreeLetters in first + second <==> QuoteCurrencyNotThreeLetters in second;
    assert ManufacturedQuantityNegative in first + second <==> ManufacturedQuantityNegative in first;
    first + second
  }

  /** The version, requirements, quantity and catalogue-id rules of an update request. */
  function UpdateQuantityRules(r: UpdateOrderRequest): (errors: seq<Failure>)
    ensures errors == [] <==>
              && NotEmpty(r.version)
              && PositiveOrAbsent(r.orderedQuantity) && PositiveOrAbsent(r.materialId) && PositiveOrAbsent(r.colorId)
              && (r.manufacturedQuantity.Some? ==> r.manufacturedQuantity.value >= 0)
              && (r.requirements.Some? ==> |r.requirements.value| <= 5000)
    ensures ManufacturedQuantityNegative in errors <==>
              r.manufacturedQuantity.Some? && r.manufacturedQuantity.value < 0
    ensures QuoteCurrencyNotThreeLetters !in errors
  {
    Check(NotEmpty(r.version), VersionRequired)
    + MaxLengthUnlessEmpty(r.requirements, 5000, RequirementsTooLong)
    + PositiveWhenPresent(r.orderedQuantity, OrderedQuantityNotPositive)
    + (if r.manufacturedQuantity.None? then []
       else Check(r.manufacturedQuantity.value >= 0, ManufacturedQuantityNegative))
    + PositiveWhenPresent(r.materialId, MaterialIdNotPositive)
    + PositiveWhenPresent(r.colorId, ColorIdNotPositive)
  }

  /** The remaining rules of an update request: finish, lead time, quote and the two id lengths. */
  function UpdateOtherRules(r: UpdateOrderRequest): (errors: seq<Failure>)
    ensures errors == [] <==>
              && PositiveOrAbsent(r.surfaceFinishingId) && PositiveOrAbsent(r.leadTimeDays)
              && (r.quotedAmount.Some? ==> r.quotedAmount.value > 0.0)
              && (r.quoteCurrency.Some? && r.quoteCurrency.value != "" ==> |r.quoteCurrency.value| == 3)
              && (r.assignedEmployeeId.Some? ==> |r.assignedEmployeeId.value| <= 50)
              && (r.departmentId.Some? ==> |r.departmentId.value| <= 50)
    ensures QuoteCurrencyNotThreeLetters in errors <==>
              !IsNullOrEmpty(r.quoteCurrency) && |r.quoteCurrency.value| != 3
    ensures ManufacturedQuantityNegative !in errors
  {
    PositiveWhenPresent(r.surfaceFinishingId, SurfaceFinishingIdNotPositive)
    + PositiveWhenPresent(r.leadTimeDays, LeadTimeDaysNotPositive)
    + (if r.quotedAmount.None? then []
       else Check(r.quotedAmount.value > 0.0, QuotedAmountNotPositive))
    + (if IsNullOrEmpty(r.quoteCurrency) then []
       else Check(|r.quoteCurrency.value| == 3, QuoteCurrencyNotThreeLetters))
    + MaxLengthUnlessEmpty(r.assignedEmployeeId, 50, AssignedEmployeeIdTooLong)
    + MaxLengthUnlessEmpty(r.departmentId, 50, DepartmentIdTooLong)
  }

  /** An update request the validator accepts. */
  predicate UpdateOrderIsValid(r: UpdateOrderRequest) {
    && NotEmpty(r.version)
    && PositiveOrAbsent(r.orderedQuantity) && PositiveOrAbsent(r.materialId) && PositiveOrAbsent(r.colorId)
    && PositiveOrAbsent(r.surfaceFinishingId) && PositiveOrAbsent(r.leadTimeDays)
    && (r.manufacturedQuantity.Some? ==> r.manufacturedQuantity.value >= 0)
    && (r.quotedAmount.Some? ==> r.quotedAmount.value > 0.0)
    && (r.quoteCurrency.Some? && r.quoteCurrency.value != "" ==> |r.quoteCurrency.value| == 3)
    && (r.requirements.Some? ==> |r.requirements.value| <= 5000)
    && (r.assignedEmployeeId.Some? ==> |r.assignedEmployeeId.value| <= 50)
    && (r.departmentId.Some? ==> |r.departmentId.value| <= 50)
  }

  /** An update request carrying only a version and an optional assignee. */
  function VersionOnlyUpdate(version: string, assignedEmployeeId: Option<string>): UpdateOrderRequest {
    UpdateOrderRequest(version, None, None, None, None, None, None, None, None, None, None, None, assignedEmployeeId, None)
  }

  /** A version that is not base 64 still passes the validator; the service rejects it later. */
  lemma MalformedVersionPassesValidation()
    ensures UpdateOrderErrors(VersionOnlyUpdate("not-base64!", None)) == []
    ensures Base64.Decode("not-base64!").None?
  {
    assert !IsWhiteSpace("not-base64!"[0]);
    Base64.RejectsForeignCharacter();
  }

  /** A manufactured quantity of zero and any three characters as currency are accepted. */
  lemma ZeroManufacturedAndAnyThreeLetters(version: string, currency: string)
    requires NotEmpty(version) && |currency| == 3
    ensures UpdateOrderErrors(UpdateOrderRequest(version, None, None, Some(0), None, None, None, None, None, None,
                                                 None, Some(currency), None, None)) == []
  {
  }

  // ---- CreateOrderStatusRequestValidator ----

  const ValidStatuses: seq<string> := ["New", "Reviewing", "Rejected", "Reviewed", "Quoted", "Declined", "Accepted",
                                       "Expired", "Paid", "POIssued", "InProgress", "OnHold", "Finished", "Shipped",
                                       "Reopen", "Cancelled"]

  function CreateOrderStatusErrors(r: CreateOrderStatusRequest): (errors: seq<Failure>)
    ensures errors == [] <==> CreateOrderStatusIsValid(r)
    ensures StatusNotListed in errors <==> r.status !in ValidStatuses
  {
    if r.status in ValidStatuses then
      ListedIsNotBlank(ValidStatuses, r.status);
      StatusRulesOf(r)
    else
      StatusRulesOf(r)
  }

  function StatusRulesOf(r: CreateOrderStatusRequest): seq<Failure> {
    Check(NotEmpty(r.status), StatusRequired)
    + Check(r.status in ValidStatuses, StatusNotListed)
    + MaxLengthUnlessEmpty(r.internalNotes, 2000, InternalNotesTooLong)
    + MaxLengthUnlessEmpty(r.customerNotes, 2000, CustomerNotesTooLong)
  }

  /** A status request the validator accepts: one of the sixteen statuses, notes of at most 2000 characters each. */
  predicate CreateOrderStatusIsValid(r: CreateOrderStatusRequest) {
    && r.status in ValidStatuses
    && (r.internalNotes.Some? ==> |r.internalNotes.value| <= 2000)
    && (r.customerNotes.Some? ==> |r.customerNotes.value| <= 2000)
  }

  /** An empty status fails both validators of its rule. */
  lemma EmptyStatusRejected(internalNotes: Option<string>, customerNotes: Option<string>)
    ensures var errors := CreateOrderStatusErrors(CreateOrderStatusRequest("", internalNotes, customerNotes));
            |errors| >= 2 && errors[0] == StatusRequired && errors[1] == StatusNotListed
  {
    assert forall i :: 0 <= i < |ValidStatuses| ==> |ValidStatuses[i]| > 0;
  }

  /** Status membership is case-sensitive: "new" is not "New". */
  lemma LowerCaseStatusRejected()
    ensures CreateOrderStatusErrors(CreateOrderStatusRequest("new", None, None)) == [StatusNotListed]
  {
    assert !IsWhiteSpace("new"[0]);
    assert forall i :: 0 <= i < |ValidStatuses| ==> ValidStatuses[i][0] != 'n';
  }

  // ---- CreateOrderNoteRequestValidator ----

  const ValidNoteTypes: seq<string> := ["customer", "internal"]

  function CreateOrderNoteErrors(r: CreateOrderNoteRequest): (errors: seq<Failure>)
    ensures errors == [] <==> r.noteType in ValidNoteTypes && NotEmpty(r.noteText) && |r.noteText| <= 2000
    ensures NoteTextTooLong in errors <==> |r.noteText| > 2000
  {
    if r.noteType in ValidNoteTypes then
      ListedIsNotBlank(ValidNoteTypes, r.noteType);
      NoteRulesOf(r)
    else
      NoteRulesOf(r)
  }

  function NoteRulesOf(r: CreateOrderNoteRequest): seq<Failure> {
    Check(NotEmpty(r.noteType), NoteTypeRequired)
    + Check(r.noteType in ValidNoteTypes, NoteTypeNotListed)
    + Check(NotEmpty(r.noteText), NoteTextRequired)
    + Check(|r.noteText| <= 2000, NoteTextTooLong)
  }

  /** The message `CreateOrderNoteErrors` reports for a type outside the two, spelled out: it lists them in declaration order. */
  lemma NoteTypeMessageText()
    ensures NoteTypeNotListed.ErrorMessage() == "Note Type must be one of: customer, internal"
  {
    assert Join(ValidNoteTypes[1..]) == "internal";
  }

  /** An empty note type and an empty text are each reported as required. */
  lemma EmptyNoteRejected()
    ensures CreateOrderNoteErrors(CreateOrderNoteRequest("", "")) ==
              [NoteTypeRequired, NoteTypeNotListed, NoteTextRequired]
  {
  }

  // ---- UploadOrderFileRequestValidator ----

  const ValidFileRoles: seq<string> := ["Input", "Output", "Supporting"]
  const ValidFileCategories: seq<string> := ["CAD", "Drawing", "Image", "Document", "Archive", "Other"]
  const ValidDesignUnits: seq<string> := ["mm", "inch", "cm", "m"]

  function UploadOrderFileErrors(r: UploadOrderFileRequest): (errors: seq<Failure>)
    ensures errors == [] <==>
              && r.fileRole in ValidFileRoles && r.fileCategory in ValidFileCategories
              && (r.designUnits.Some? && r.designUnits.value != "" ==> r.designUnits.value in ValidDesignUnits)
    ensures r.fileRole == "" ==> FileRoleRequired in errors
    ensures r.fileCategory == "" ==> FileCategoryRequired in errors
  {
    if r.fileRole in ValidFileRoles && r.fileCategory in ValidFileCategories then
      ListedIsNotBlank(ValidFileRoles, r.fileRole);
      ListedIsNotBlank(ValidFileCategories, r.fileCategory);
      UploadRulesOf(r)
    else
      UploadRulesOf(r)
  }

  function UploadRulesOf(r: UploadOrderFileRequest): seq<Failure> {
    Check(NotEmpty(r.fileRole), FileRoleRequired)
    + Check(r.fileRole in ValidFileRoles, FileRoleNotListed)
    + Check(NotEmpty(r.fileCategory), FileCategoryRequired)
    + Check(r.fileCategory in ValidFileCategories, FileCategoryNotListed)
    + (if IsNullOrEmpty(r.designUnits) then []
       else Check(r.designUnits.value in ValidDesignUnits, DesignUnitsNotListed))
  }

  /** Without design units, or with empty ones, any valid role and category pass. */
  lemma DesignUnitsOptional(role: string, category: string, units: Option<string>)
    requires role in ValidFileRoles && category in ValidFileCategories
    requires units == None || units == Some("")
    ensures UploadOrderFileErrors(UploadOrderFileRequest(role, category, units)) == []
  {
  }
}
