/**
 * The `Category` domain entity of the catalog: five fields set once by its
 * constructor, and `Validate`, a fixed fail-fast chain of four guards over the
 * name and the description.
 */
module Entity {
  import opened Wrappers
  import opened DotNet

  /** `EntityValidationException`, reduced to the message it carries. */
  datatype Error = EntityValidationException(message: string)

  const NameEmptyMessage := "Name should not be empty or null"
  const NameTooShortMessage := "Name should not be less than 3 characteres"
  const NameTooLongMessage := "Name should not be greater than 255 characteres"
  const DescriptionNullMessage := "Description should not be null"

  const MinNameLength := 3
  const MaxNameLength := 255

  // ---------------------------------------------------------------------------
  // The validation rules, stated one by one and independently of the guard chain.
  // ---------------------------------------------------------------------------

  datatype Rule = NameNotBlank | NameMinLength | NameMaxLength | DescriptionNotNull

  /** The order in which the rules are checked. */
  const Rules: seq<Rule> := [NameNotBlank, NameMinLength, NameMaxLength, DescriptionNotNull]

  /** The message of the error raised when `rule` is the first one broken. */
  function Message(rule: Rule): string {
    match rule
    case NameNotBlank => NameEmptyMessage
    case NameMinLength => NameTooShortMessage
    case NameMaxLength => NameTooLongMessage
    case DescriptionNotNull => DescriptionNullMessage
  }

  /** Whether `rule` holds of a candidate name and description (a null name has no length). */
  predicate Satisfied(rule: Rule, name: Option<NetString>, description: Option<NetString>) {
    match rule
    case NameNotBlank => name.Some? && exists i :: 0 <= i < |name.value| && !IsWhiteSpace(name.value[i])
    case NameMinLength => name.Some? && MinNameLength <= |name.value|
    case NameMaxLength => name.Some? && |name.value| <= MaxNameLength
    case DescriptionNotNull => description.Some?
  }

  /** The conditions under which a category is well formed, written out in full. */
  predicate WellFormed(name: Option<NetString>, description: Option<NetString>) {
    && name.Some?
    && (exists i :: 0 <= i < |name.value| && !IsWhiteSpace(name.value[i]))
    && MinNameLength <= |name.value| <= MaxNameLength
    && description.Some?
  }

  /** The first of `rules` that is broken, if any. */
  function FirstViolation(rules: seq<Rule>, name: Option<NetString>, description: Option<NetString>): (r: Option<Rule>)
    ensures r.None? <==> forall k :: 0 <= k < |rules| ==> Satisfied(rules[k], name, description)
    ensures r.Some? ==> exists k :: 0 <= k < |rules| && rules[k] == r.value && !Satisfied(rules[k], name, description)
                                    && forall j :: 0 <= j < k ==> Satisfied(rules[j], name, description)
  {
    if rules == [] then None
    else if !Satisfied(rules[0], name, description) then Some(rules[0])
    else
      var r := FirstViolation(rules[1..], name, description);
      assert r.Some? ==> exists k :: 1 <= k < |rules| && rules[k] == r.value && !Satisfied(rules[k], name, description)
                                    && forall j :: 0 <= j < k ==> Satisfied(rules[j], name, description) by {
        if r.Some? {
          var k' :| 0 <= k' < |rules[1..]| && rules[1..][k'] == r.value && !Satisfied(rules[1..][k'], name, description)
                    && forall j :: 0 <= j < k' ==> Satisfied(rules[1..][j], name, description);
          assert rules[k' + 1] == r.value;
        }
      }
      r
  }

  /** The error a failed validation raises: the first broken rule's message. */
  function ErrorFor(violation: Option<Rule>): Option<Error> {
    match violation
    case None => None
    case Some(rule) => Some(EntityValidationException(Message(rule)))
  }

  // ---------------------------------------------------------------------------
  // The guard chain of `Validate`.
  // ---------------------------------------------------------------------------

  /**
   * The four guards of `Validate`, in their order; the first that fails gives the
   * error, and `None` means that validation passes.
   */
  function ValidateFields(name: Option<NetString>, description: Option<NetString>): (r: Option<Error>)
    ensures r.None? <==> WellFormed(name, description)
    ensures r.Some? ==> r.value.message in {NameEmptyMessage, NameTooShortMessage, NameTooLongMessage, DescriptionNullMessage}
  {
    if IsNullOrWhiteSpace(name) then Some(EntityValidationException(NameEmptyMessage))
    else if |name.value| < MinNameLength then Some(EntityValidationException(NameTooShortMessage))
    else if |name.value| > MaxNameLength then Some(EntityValidationException(NameTooLongMessage))
    else if description.None? then Some(EntityValidationException(DescriptionNullMessage))
    else None
  }

  /** The guard chain reports exactly the first broken rule, in the order of `Rules`. */
  lemma ValidateReportsFirstViolation(name: Option<NetString>, description: Option<NetString>)
    ensures ValidateFields(name, description) == ErrorFor(FirstViolation(Rules, name, description))
  {
    var rs := Rules;
    assert Satisfied(NameNotBlank, name, description) <==> !IsNullOrWhiteSpace(name);
    assert rs[1..] == [NameMinLength, NameMaxLength, DescriptionNotNull];
    assert rs[1..][1..] == [NameMaxLength, DescriptionNotNull];
    assert rs[1..][1..][1..] == [DescriptionNotNull];
    assert rs[1..][1..][1..][1..] == [];
    if IsNullOrWhiteSpace(name) {
      assert FirstViolation(rs, name, description) == Some(NameNotBlank);
    } else if |name.value| < MinNameLength {
      assert FirstViolation(rs, name, description) == FirstViolation(rs[1..], name, description) == Some(NameMinLength);
    } else if |name.value| > MaxNameLength {
      assert FirstViolation(rs[1..], name, description) == FirstViolation(rs[1..][1..], name, description);
      assert FirstViolation(rs[1..][1..], name, description) == Some(NameMaxLength);
    } else {
      assert FirstViolation(rs, name, description) == FirstViolation(rs[1..], name, description)
          == FirstViolation(rs[1..][1..], name, description) == FirstViolation(rs[1..][1..][1..], name, description);
    }
  }

  /** Well-formedness is the conjunction of the rules in `Rules`. */
  lemma WellFormedIffRulesHold(name: Option<NetString>, description: Option<NetString>)
    ensures WellFormed(name, description) <==> forall k :: 0 <= k < |Rules| ==> Satisfied(Rules[k], name, description)
  {
    ValidateReportsFirstViolation(name, description);
  }

  /** A null, empty or all-white-space name fails with the first rule's message, whatever its length. */
  lemma BlankNameRejected(name: Option<NetString>, description: Option<NetString>)
    requires name.None? || forall i :: 0 <= i < |name.value| ==> IsWhiteSpace(name.value[i])
    ensures ValidateFields(name, description) == Some(EntityValidationException(NameEmptyMessage))
  {
  }

  /** A non-blank name shorter than three code units fails with the length message. */
  lemma ShortNameRejected(name: NetString, description: Option<NetString>)
    requires exists i :: 0 <= i < |name| && !IsWhiteSpace(name[i])
    requires |name| < MinNameLength
    ensures ValidateFields(Some(name), description) == Some(EntityValidationException(NameTooShortMessage))
  {
  }

  /** A non-blank name longer than 255 code units fails with the length message. */
  lemma LongNameRejected(name: NetString, description: Option<NetString>)
    requires exists i :: 0 <= i < |name| && !IsWhiteSpace(name[i])
    requires |name| > MaxNameLength
    ensures ValidateFields(Some(name), description) == Some(EntityValidationException(NameTooLongMessage))
  {
  }

  /** With a valid name, a null description fails and any present description, empty included, passes. */
  lemma DescriptionRule(name: NetString, description: Option<NetString>)
    requires exists i :: 0 <= i < |name| && !IsWhiteSpace(name[i])
    requires MinNameLength <= |name| <= MaxNameLength
    ensures description.None? ==> ValidateFields(Some(name), description) == Some(EntityValidationException(DescriptionNullMessage))
    ensures description.Some? ==> ValidateFields(Some(name), description) == None
  {
  }

  /** The four messages are distinct, so the error names the rule that was broken. */
  lemma MessageIdentifiesRule(a: Rule, b: Rule)
    ensures Message(a) == Message(b) <==> a == b
  {
  }

  // ---------------------------------------------------------------------------
  // The entity.
  // ---------------------------------------------------------------------------

  class Category {
    const Id: Guid
    const Name: Option<NetString>
    const Description: Option<NetString>
    const IsActive: bool
    const CreatedAt: DateTime

    /**
     * Assigns the five fields and does not validate them; `Create` is the
     * counterpart of the validating constructor.
     */
    constructor (id: Guid, name: Option<NetString>, description: Option<NetString>, isActive: bool, createdAt: DateTime)
      ensures Id == id && Name == name && Description == description
      ensures IsActive == isActive && CreatedAt == createdAt
    {
      Id := id;
      Name := name;
      Description := description;
      IsActive := isActive;
      CreatedAt := createdAt;
    }

    /**
     * `Validate()`: depends only on the fields, which are fixed once the constructor
     * has run, and changes none of them.
     */
    function Validate(): (r: Option<Error>)
      ensures r.None? <==> WellFormed(Name, Description)
    {
      ValidateFields(Name, Description)
    }

    /**
     * `new Category(name, description, isActive)`: the identifier and the timestamp
     * that the source draws from `Guid.NewGuid()` and `DateTime.Now` are passed in.
     * On failure no instance is returned.
     */
    static method Create(id: Guid, createdAt: DateTime, name: Option<NetString>, description: Option<NetString>,
                         isActive: bool := true)
      returns (r: Result<Category, Error>)
      ensures r.Failure? <==> !WellFormed(name, description)
      ensures r.Failure? ==> Some(r.error) == ValidateFields(name, description)
      ensures r.Success? ==> fresh(r.value)
      ensures r.Success? ==> r.value.Id == id && r.value.Name == name && r.value.Description == description
                             && r.value.IsActive == isActive && r.value.CreatedAt == createdAt
      ensures r.Success? ==> r.value.Validate() == None
    {
      var c := new Category(id, name, description, isActive, createdAt);
      var e := c.Validate();
      if e.Some? {
        return Failure(e.value);
      }
      return Success(c);
    }
  }
}
