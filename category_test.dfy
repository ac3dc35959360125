/** The cases of the entity's unit tests, stated over the model. */
module CategoryTest {
  import opened Wrappers
  import opened DotNet
  import opened Entity

  /** A well-formed category is created with the given fields and is active when `isActive` is omitted. */
  method Instantiate(id: Guid, createdAt: DateTime) returns (r: Result<Category, Error>)
    ensures r.Success?
    ensures r.value.Name == Some(FromLiteral("category name"))
    ensures r.value.Description == Some(FromLiteral("category description"))
    ensures r.value.Id == id && r.value.CreatedAt == createdAt
    ensures r.value.IsActive
  {
    var name := FromLiteral("category name");
    assert !IsWhiteSpace(name[0]);
    r := Category.Create(id, createdAt, Some(name), Some(FromLiteral("category description")));
  }

  /** An explicit `isActive` is stored as given, whether true or false. */
  method InstantiateWithIsActive(id: Guid, createdAt: DateTime, isActive: bool) returns (r: Result<Category, Error>)
    ensures r.Success?
    ensures r.value.Name == Some(FromLiteral("category name"))
    ensures r.value.Description == Some(FromLiteral("category description"))
    ensures r.value.IsActive == isActive
  {
    var name := FromLiteral("category name");
    assert !IsWhiteSpace(name[0]);
    r := Category.Create(id, createdAt, Some(name), Some(FromLiteral("category description")), isActive);
  }

  /** `""`, `null` and `"   "` all fail with the empty-name message. */
  method InstantiateErrorWhenNameIsEmpty(id: Guid, createdAt: DateTime, name: Option<NetString>)
    returns (r: Result<Category, Error>)
    requires name == Some(FromLiteral("")) || name == None || name == Some(FromLiteral("   "))
    ensures r.Failure? && r.error.message == "Name should not be empty or null"
  {
    r := Category.Create(id, createdAt, name, Some(FromLiteral("Category Description")));
  }

  /** A null description fails with its own message. */
  method InstantiateErrorWhenDescriptionIsNull(id: Guid, createdAt: DateTime) returns (r: Result<Category, Error>)
    ensures r.Failure? && r.error.message == "Description should not be null"
  {
    var name := FromLiteral("Category name");
    assert !IsWhiteSpace(name[0]);
    r := Category.Create(id, createdAt, Some(name), None);
  }

  /** `"1"`, `"12"`, `"a"` and `"ac"` fail with the too-short message. */
  method InstantiateErrorWhenNameLessThan3Characteres(id: Guid, createdAt: DateTime, invalidName: string)
    returns (r: Result<Category, Error>)
    requires invalidName in ["1", "12", "a", "ac"]
    ensures r.Failure? && r.error.message == "Name should not be less than 3 characteres"
  {
    var name := FromLiteral(invalidName);
    assert !IsWhiteSpace(name[0]);
    r := Category.Create(id, createdAt, Some(name), Some(FromLiteral("Category Description")));
  }

  /** A name of 256 `'a'`s fails with the too-long message. */
  method InstantiateErrorWhenNameGreaterThan255Characteres(id: Guid, createdAt: DateTime)
    returns (r: Result<Category, Error>)
    ensures r.Failure? && r.error.message == "Name should not be greater than 255 characteres"
  {
    var invalidName := seq(256, _ => 0x61 as Char16);
    assert !IsWhiteSpace(invalidName[0]);
    r := Category.Create(id, createdAt, Some(invalidName), Some(FromLiteral("Category Description")));
  }

  /**
   * An instance built successfully still validates after other instances have been
   * built: its fields cannot be reassigned.
   */
  method ValidateAgainAfterConstruction(id: Guid, other: Guid, createdAt: DateTime) returns (e: Option<Error>)
    ensures e == None
  {
    var name := FromLiteral("category name");
    assert !IsWhiteSpace(name[0]);
    var r := Category.Create(id, createdAt, Some(name), Some(FromLiteral("category description")));
    var s := Category.Create(other, createdAt, None, None);
    assert s.Failure?;
    e := r.value.Validate();
  }

  /** With both fields null, only the first rule's error is reported. */
  lemma NullNameAndNullDescriptionReportsName()
    ensures ValidateFields(None, None) == Some(EntityValidationException(NameEmptyMessage))
  {
  }

  /** The length limits count the untrimmed name: `"  a"` is accepted. */
  lemma UntrimmedLengthCounts()
    ensures ValidateFields(Some(FromLiteral("  a")), Some(FromLiteral(""))) == None
  {
  }
}
