# Category entity of the Codeflix catalog, modelled in Dafny

The catalog's domain layer has one entity, `Category`. Its constructor takes a
name, a description and an optional active flag (default `true`). It draws a
fresh `Guid` for the identifier and reads `DateTime.Now` for the creation time.
It stores these five fields and then calls `Validate()`. `Validate()` runs four
guards in a fixed order and raises an `EntityValidationException` with an exact
message at the first one that fails:

1. the name is null, empty or white space only: "Name should not be empty or null";
2. the name is shorter than 3: "Name should not be less than 3 characteres";
3. the name is longer than 255: "Name should not be greater than 255 characteres";
4. the description is null: "Description should not be null".

The project has four modules:

- `Wrappers` (`wrappers.dfy`): `Option` stands for a C# reference that may be null. `Result` stands for a call that returns or throws.
- `DotNet` (`dotnet.dfy`): the parts of the .NET library the entity uses.
  - A `string` is a sequence of UTF-16 code units, because .NET's `Length` counts code units.
  - `Char.IsWhiteSpace` is written as an explicit list of code points, and `String.IsNullOrWhiteSpace` is built on it.
  - `Guid` is a 128-bit value and `DateTime` is a tick count.
- `Entity` (`category.dfy`): the entity itself.
  - `ValidateFields` is the guard chain. `Rules`, `Satisfied` and `FirstViolation` give an independent definition of "the first broken rule", and `WellFormed` is the success condition written out in full.
  - The class `Category` has the five fields, declared `const`: the source's setters are private and no member of the class reassigns them, so nothing changes them after construction. Its constructor only assigns them.
  - `Validate()` is a function of those fields, so it cannot change them and gives the same answer whenever it is called.
  - `Category.Create` plays the part of the C# constructor. It returns `Failure(error)` where the source throws, and in that case no instance is returned.
- `CategoryTest` (`category_test.dfy`): the cases of the unit tests, stated over the model.

`Validate()` measures the length on the untrimmed name, so `"  a"` passes
(`CategoryTest.UntrimmedLengthCounts`).

## Model

| member | source | states |
|---|---|---|
| `DotNet.AllWhiteSpace` | src/FC.Codeflix.Category.Domain/Entity/Category.cs:29 | true exactly when every code unit of the string is white space, the empty string included |
| `DotNet.IsNullOrWhiteSpace` | src/FC.Codeflix.Category.Domain/Entity/Category.cs:29 | true exactly when the string is null or every code unit is white space |
| `Entity.ValidateFields` | src/FC.Codeflix.Category.Domain/Entity/Category.cs:27-40 | passes exactly when the name is non-null, has a non-white-space code unit, has length 3 to 255, and the description is non-null; any error carries one of the four messages |
| `Entity.FirstViolation` | src/FC.Codeflix.Category.Domain/Entity/Category.cs:29-39 | reference for the rule order: returns none exactly when every rule holds; otherwise returns a broken rule such that every earlier rule holds |
| `Entity.ValidateReportsFirstViolation` | src/FC.Codeflix.Category.Domain/Entity/Category.cs:29-39 | the guard chain is fail-fast and ordered: its error is the message of the first broken rule in the order blank, too short, too long, description null |
| `Entity.WellFormedIffRulesHold` | src/FC.Codeflix.Category.Domain/Entity/Category.cs:29-39 | validation succeeds exactly when every one of the four ordered rules holds |
| `Entity.BlankNameRejected` | src/FC.Codeflix.Category.Domain/Entity/Category.cs:29-30 | a null or all-white-space name fails with "Name should not be empty or null", whatever its length and whatever the description |
| `Entity.ShortNameRejected` | src/FC.Codeflix.Category.Domain/Entity/Category.cs:32-33 | a non-blank name of length below 3 fails with "Name should not be less than 3 characteres", whatever the description |
| `Entity.LongNameRejected` | src/FC.Codeflix.Category.Domain/Entity/Category.cs:35-36 | a non-blank name of length above 255 fails with "Name should not be greater than 255 characteres", whatever the description |
| `Entity.DescriptionRule` | src/FC.Codeflix.Category.Domain/Entity/Category.cs:38-39 | with a valid name, a null description fails with "Description should not be null" and any non-null description, the empty one included, passes |
| `Entity.MessageIdentifiesRule` | src/FC.Codeflix.Category.Domain/Entity/Category.cs:30-39 | the four messages are pairwise distinct, so the error tells which rule was broken |
| `Entity.Category.constructor` | src/FC.Codeflix.Category.Domain/Entity/Category.cs:16-22 | the five fields hold exactly the identifier, name, description, flag and timestamp supplied |
| `Entity.Category.Validate` | src/FC.Codeflix.Category.Domain/Entity/Category.cs:27-40 | depends only on the immutable fields and changes none; passes exactly when the stored name and description are well formed |
| `Entity.Category.Create` | src/FC.Codeflix.Category.Domain/Entity/Category.cs:16-25 | fails exactly when the inputs are not well formed, with the guard chain's error and no instance; on success returns a fresh instance whose fields equal the inputs (`isActive` defaults to true) and on which `Validate()` passes again |
| `CategoryTest.Instantiate` | tests/FC.Codeflix.Catalog.UnitTests/Domain/Entity/Category/CategoryTest.cs:11-35 | valid data without a flag gives an instance with that name, description, identifier and timestamp, and `IsActive` true |
| `CategoryTest.InstantiateWithIsActive` | tests/FC.Codeflix.Catalog.UnitTests/Domain/Entity/Category/CategoryTest.cs:42-66 | an explicit flag, true or false, is stored as given |
| `CategoryTest.InstantiateErrorWhenNameIsEmpty` | tests/FC.Codeflix.Catalog.UnitTests/Domain/Entity/Category/CategoryTest.cs:69-81 | creating a category named `""`, null or `"   "` fails with the message "Name should not be empty or null", not a length message |
| `CategoryTest.InstantiateErrorWhenDescriptionIsNull` | tests/FC.Codeflix.Catalog.UnitTests/Domain/Entity/Category/CategoryTest.cs:83-92 | creating a category with a valid name and a null description fails with the message "Description should not be null" |
| `CategoryTest.InstantiateErrorWhenNameLessThan3Characteres` | tests/FC.Codeflix.Catalog.UnitTests/Domain/Entity/Category/CategoryTest.cs:94-107 | creating a category named `"1"`, `"12"`, `"a"` or `"ac"` fails with the message "Name should not be less than 3 characteres" |
| `CategoryTest.InstantiateErrorWhenNameGreaterThan255Characteres` | tests/FC.Codeflix.Catalog.UnitTests/Domain/Entity/Category/CategoryTest.cs:109-122 | creating a category named with 256 `'a'`s fails with the message "Name should not be greater than 255 characteres" |
| `CategoryTest.ValidateAgainAfterConstruction` | src/FC.Codeflix.Category.Domain/Entity/Category.cs:7-14 | an instance built successfully still passes `Validate()` after further instances have been created, because its fields cannot be reassigned |
| `CategoryTest.NullNameAndNullDescriptionReportsName` | src/FC.Codeflix.Category.Domain/Entity/Category.cs:29-39 | with both fields null only the name error is reported |
| `CategoryTest.UntrimmedLengthCounts` | src/FC.Codeflix.Category.Domain/Entity/Category.cs:29-39 | the length is taken on the untrimmed name: `"  a"` with an empty description passes |

## Left out

- `Guid.NewGuid()` (Category.cs line 18) is a library call. The identifier is a parameter of `Create`. That it is not `default(Guid)` and that two instances get distinct identifiers are promises of the library, so they are not proved.
- `DateTime.Now` (Category.cs line 22) is the system clock. The timestamp is a parameter of `Create`. The tests' check that `CreatedAt` lies strictly between two readings of the clock is a property of real time and is not modelled.
- `EntityValidationException` is not part of this model beyond the message it carries. Throwing and propagating it is modelled as a `Failure` result.
- `DotNet.IsWhiteSpace` lists the white-space code points that .NET documents for `Char.IsWhiteSpace`. It does not follow changes to the Unicode tables in other .NET versions.
- Unlike `new Category(...)` in C#, the model's unnamed constructor does not validate; it only assigns the fields. `Category.Create` is the counterpart of the validating C# constructor.
- `DotNet.FromLiteral` turns a string literal into UTF-16 form for the test cases. It covers characters of the Basic Multilingual Plane only, which is all that the tests use.
- The xUnit harness is not modelled. Its assertions appear only as the `CategoryTest` members.
