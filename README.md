# Media catalog service layer, modelled in Dafny

This project models the service layer of the media catalog back end. It
covers:

- the current `UserService`: register, setPassword, remove, login, update,
  getUser and getAllUsers, plus the email and password validators;
- `MidiaService`: register, remove, update, getMidia and getAllMidias,
  including the loop that resolves actor ids;
- `DataValidationException`, which aggregates the validation messages;
- `DetailedMidiaResponseDTO`, which projects each actor of a media item to
  an (id, name) pair;
- the older copies of `UserService` (register, setPassword, remove) and
  `ActorService` (registerActor).

Each service is a class. Its fields stand in for the Spring Data
repositories: a `map` from id to record, the stored ids in ascending order,
and a counter that hands out fresh ids. Every operation returns an
`Outcome`:

- `Ok(value)` is a normal return;
- `Validation(errors)` stands for a thrown `DataValidationException`, with
  its error list;
- `NotFound(message)` stands for a thrown `DataNotFoundException`.

A Java `null` is `None`. Both kinds of blank check are modelled as the
source writes them:

- `trim().isEmpty()` (`JavaText.TrimEmpty`) means every character is at
  most U+0020;
- `isBlank()` (`JavaText.IsBlank`) means every character is
  `Character.isWhitespace`.

The two regular expressions are written out as character predicates:

- the email pattern `^[A-Za-z0-9+_.-]+@(.+)$` has a scanner,
  `Validators.MatchesEmail`, which is proved equal to a declarative shape,
  `Validators.EmailShape`;
- the password pattern becomes `Validators.StrongPassword`.

Messages are the source's literals, typos included. Each copy of a service
keeps its own literals. For example, the current copy replies "Password
reseted successfuly" and the older copy replies "Passowrd rested
successfuly".

Modules:

| module | what it holds |
|---|---|
| `Outcomes` | `Option` and `Outcome` |
| `JavaText` | blank checks, `String.join`, `Long.toString`, `List<Long>.toString` |
| `Errors` | `DataValidationException` |
| `Validators` | `validateEmail` and `validatePassword` |
| `Store` | the id listing, removal of an id, and paging |
| `Accounts` | user records and the validation rules both copies of `UserService` share |
| `Users` | the current `UserService` |
| `LegacyUsers` | the older `UserService` |
| `Catalog` | media and actor records, and `DetailedMidiaResponseDTO` |
| `Midias` | `MidiaService` |
| `LegacyActors` | the older `ActorService` |

## Model

| member | source | states |
|---|---|---|
| JavaText.TrimLeading | src/main/java/com/catalog/midiacatalog/service/UserService.java:209 | The leading half of `trim()`: what remains is a suffix of the input that is empty or starts above U+0020, and everything dropped is at most U+0020. |
| JavaText.TrimTrailing | src/main/java/com/catalog/midiacatalog/service/UserService.java:209 | The trailing half of `trim()`: what remains is a prefix of the input that is empty or ends above U+0020, and everything dropped is at most U+0020. |
| JavaText.Trim | src/main/java/com/catalog/midiacatalog/service/UserService.java:209 | `trim()` returns the slice of its input left after dropping characters up to U+0020 from both ends: only such characters lie before and after it, and it is empty or starts and ends above U+0020. |
| JavaText.TrimmedEmptyExactlyWhenLow | src/main/java/com/catalog/midiacatalog/service/UserService.java:209 | `trim()` returns the empty string exactly when no character is above U+0020, which is the reading `TrimEmpty` gives `trim().isEmpty()`. |
| JavaText.TrimEmpty | src/main/java/com/catalog/midiacatalog/service/UserService.java:209 | `s.trim().isEmpty()`: every character is at most U+0020 (tied to `Trim` by `TrimmedEmptyExactlyWhenLow`). |
| JavaText.IsBlank | src/main/java/com/catalog/midiacatalog/service/UserService.java:142 | `s.isBlank()`: every character is `Character.isWhitespace`, which takes in the Unicode space, line and paragraph separators other than the no-break ones, and the controls U+0009-U+000D and U+001C-U+001F. |
| JavaText.BlankTestsDisagree | src/main/java/com/catalog/midiacatalog/service/UserService.java:142 | The two blank tests disagree both ways: some string is blank but survives `trim()` (an em space), and some string is trimmed to nothing but is not blank (a NUL). |
| JavaText.Join | src/main/java/com/catalog/midiaCatalog/exception/DataValidationException.java:16 | `String.join`: an empty list gives the empty string. Otherwise the result's length is the total length of the elements plus one separator between each two, and it starts with the first element. |
| JavaText.LongToString | src/main/java/com/catalog/midiacatalog/service/MidiaService.java:62 | `Long.toString`: a minus sign exactly for negative numbers, and digits everywhere after it. |
| JavaText.LongListToString | src/main/java/com/catalog/midiacatalog/service/MidiaService.java:62 | `List<Long>.toString`: bracketed, and exactly `[]` for the empty list. |
| JavaText.JoinSingleton | src/main/java/com/catalog/midiaCatalog/exception/DataValidationException.java:16 | `String.join` of a one-element list is that element. |
| JavaText.JoinSnoc | src/main/java/com/catalog/midiaCatalog/exception/DataValidationException.java:16 | Appending an element to a non-empty list appends the separator and the element to the joined text. |
| JavaText.JoinContains | src/main/java/com/catalog/midiaCatalog/exception/DataValidationException.java:16 | Every element of the list occurs in the joined text. |
| JavaText.NatToDecimal | src/main/java/com/catalog/midiacatalog/service/MidiaService.java:62 | The decimal rendering of an id is a non-empty run of digits with no leading zero. |
| JavaText.NatToDecimalRoundTrip | src/main/java/com/catalog/midiacatalog/service/MidiaService.java:62 | The decimal rendering of a natural number reads back as that number. |
| JavaText.LongToStringRoundTrip | src/main/java/com/catalog/midiacatalog/service/MidiaService.java:62 | `Long.toString` loses nothing: every id, negative ones included, reads back from its rendering. |
| JavaText.LongToStringInjective | src/main/java/com/catalog/midiacatalog/service/MidiaService.java:62 | Distinct ids render as distinct strings. |
| JavaText.Decimals | src/main/java/com/catalog/midiacatalog/service/MidiaService.java:62 | The list's rendering renders each element with `Long.toString`, in order. |
| JavaText.LongListMentionsEach | src/main/java/com/catalog/midiacatalog/service/MidiaService.java:62 | The `List<Long>.toString` rendering of the missing ids names every one of them. |
| Errors.MessageOfOne | src/main/java/com/catalog/midiaCatalog/exception/DataValidationException.java:16 | The list constructor's message for a one-error list is that error, the same message the single-message constructor gives. |
| Errors.MessageOfSnoc | src/main/java/com/catalog/midiaCatalog/exception/DataValidationException.java:16 | Each further error adds ", " and that error to the message. |
| Errors.MessageMentionsEach | src/main/java/com/catalog/midiaCatalog/exception/DataValidationException.java:16 | Every collected error can be found in the message. |
| Errors.DataValidationException.Single | src/main/java/com/catalog/midiaCatalog/exception/DataValidationException.java:9-13 | The single-message constructor: `getMessage()` is the message, and `getErrors()` is the one-element list holding it. |
| Errors.DataValidationException.FromList | src/main/java/com/catalog/midiaCatalog/exception/DataValidationException.java:15-18 | The list constructor: the errors are kept unchanged, and the message is the errors joined with ", ". |
| Errors.DataValidationException.GetErrors | src/main/java/com/catalog/midiaCatalog/exception/DataValidationException.java:20-22 | Returns the stored errors, whose join with ", " is the message. |
| Validators.LocalTailSplits | src/main/java/com/catalog/midiacatalog/service/UserService.java:211 | Past a non-empty run of local-part characters, the scanner accepts exactly when some '@' splits the rest into local characters before it and at least one non-line-terminator character after it. |
| Validators.MatchesEmailIsShape | src/main/java/com/catalog/midiacatalog/service/UserService.java:211 | The email scanner accepts exactly the strings `^[A-Za-z0-9+_.-]+@(.+)$` matches: a non-empty local part, an '@', and a non-empty rest without line terminators. |
| Validators.MatchesEmail | src/main/java/com/catalog/midiacatalog/service/UserService.java:211 | `matches("^[A-Za-z0-9+_.-]+@(.+)$")` as a left-to-right scan: local characters, the first '@' that ends them, then at least one character that is not a line terminator (its meaning is stated by `MatchesEmailIsShape`). |
| Validators.StrongPassword | src/main/java/com/catalog/midiacatalog/service/UserService.java:220 | The lookahead pattern: at least 8 characters, none of them `\s` or a line terminator, with an uppercase letter, a digit and one of `@#$%^&+=!`. |
| Validators.ValidateEmail | src/main/java/com/catalog/midiacatalog/service/UserService.java:208-214 | No message exactly when the email is given and has the pattern's shape. "User email must be informed." exactly when it is null or trims to empty. "Invalid email format." otherwise. The older copy of the service (its lines 109-114) has the same validator. |
| Validators.ValidatePassword | src/main/java/com/catalog/midiacatalog/service/UserService.java:216-223 | No message exactly when the password is given, has at least 8 characters, has no ASCII whitespace (`[ \t\n\x0B\f\r]`) and no line terminator, and has an uppercase letter, a digit and one of `@#$%^&+=!`. "User password must be informed." exactly when it is null or trims to empty. The weak-password message otherwise. The older copy of the service (its lines 116-124) has the same validator. |
| Store.ListsInsert | src/main/java/com/catalog/midiacatalog/service/UserService.java:56 | Saving a record under a fresh id keeps the id listing exact and ascending. |
| Store.WithoutMembers | src/main/java/com/catalog/midiacatalog/service/UserService.java:99 | Deleting an id keeps every other id, and only those. |
| Store.WithoutAscending | src/main/java/com/catalog/midiacatalog/service/UserService.java:99 | Deleting an id keeps the listing ascending. |
| Store.ListsRemove | src/main/java/com/catalog/midiacatalog/service/UserService.java:99 | After `deleteById`, the listing is exactly the remaining ids. |
| Store.Without | src/main/java/com/catalog/midiacatalog/service/UserService.java:99 | `deleteById` on the listing: the result is no longer than the listing, never holds the deleted id, and is the listing itself when the id was absent. |
| Store.PageOf | src/main/java/com/catalog/midiacatalog/service/UserService.java:194-198 | A page is empty exactly when it starts past the end. Otherwise it holds `size` ids, or all the remaining ids when fewer than `size` remain. Its i-th id is the stored id at position `page * size + i`. |
| Accounts.RegisterErrorsCharacterised | src/main/java/com/catalog/midiacatalog/service/UserService.java:32-49 | `register` collects at most one message per field, in the order name, email, password. The name message appears exactly when the name is null or blank, and comes first. "Email already registered." appears exactly when a well-formed email is taken. No message appears exactly when every field is acceptable and the email is free. |
| Accounts.NameErrors | src/main/java/com/catalog/midiacatalog/service/UserService.java:35-36 | The name check reports nothing exactly when the name is given and does not trim to empty. |
| Accounts.RegisterErrors | src/main/java/com/catalog/midiacatalog/service/UserService.java:32-46 | Every message `register` collects is one of the six register messages (name, email missing or invalid, duplicate, password missing or weak). |
| Accounts.CredentialErrors | src/main/java/com/catalog/midiacatalog/service/UserService.java:65-75 | Every message is one of the four validator messages. The email-missing message appears exactly when the email is null or trims to empty, and likewise for the password. |
| Accounts.RegisterAllMissing | src/main/java/com/catalog/midiacatalog/service/UserService.java:32-49 | A command with every field missing collects the three "must be informed" messages, in order. |
| Accounts.CredentialErrorsCharacterised | src/main/java/com/catalog/midiacatalog/service/UserService.java:65-77 | `setPassword` and `login` collect at most two messages, and none exactly for a well-formed email with a strong password. |
| Accounts.RegisterKeepsAccountsValid | src/main/java/com/catalog/midiacatalog/service/UserService.java:32-56 | A registration without messages keeps every stored email well-formed and unique and every password strong. |
| Accounts.SetPasswordKeepsAccountsValid | src/main/java/com/catalog/midiacatalog/service/UserService.java:79-86 | Setting a strong password keeps the stored accounts valid. |
| Accounts.RemoveKeepsAccountsValid | src/main/java/com/catalog/midiacatalog/service/UserService.java:90-99 | Deleting an account keeps the rest valid. |
| Users.OwnEmailIsNotTaken | src/main/java/com/catalog/midiacatalog/service/UserService.java:146-152 | The uniqueness check in `update` never rejects the user's own current email, and rejects the email of every other user. |
| Users.UpdateErrorsCharacterised | src/main/java/com/catalog/midiacatalog/service/UserService.java:133-163 | `update` collects nothing exactly when id and info are both given, a supplied email is well-formed and held by no other user, and a supplied password is strong. Null id and null info are both reported, in that order. The duplicate message appears exactly when a supplied email is well-formed and held by another user. |
| Users.UpdateErrors | src/main/java/com/catalog/midiacatalog/service/UserService.java:135-163 | `update` collects at most three messages. The id message appears exactly when the id is null, and the info message exactly when the info is null. |
| Users.Patched | src/main/java/com/catalog/midiacatalog/service/UserService.java:169-175 | The patched user keeps its id. Each of name, email and password takes the supplied value when it is given and not blank, and keeps its old value otherwise. |
| Users.NameBlankTestsDisagree | src/main/java/com/catalog/midiacatalog/service/UserService.java:170 | A name that `isBlank()` rejects but `trim()` keeps, such as an em space, passes `register`'s name check (line 35) and is ignored by `update`. |
| Users.TrimmedAwayFieldReportedMissing | src/main/java/com/catalog/midiacatalog/service/UserService.java:142-157 | A supplied email or password that passes `update`'s `isBlank()` test but that `trim()` empties, such as a NUL, is reported as not informed. |
| Users.UpdateKeepsAccountsValid | src/main/java/com/catalog/midiacatalog/service/UserService.java:133-179 | An update without messages keeps the stored accounts valid. |
| Users.UserService.FindByEmail | src/main/java/com/catalog/midiacatalog/service/UserService.java:41 | Returns the stored user holding the email, or nothing exactly when no user holds it. |
| Users.UserService.Register | src/main/java/com/catalog/midiacatalog/service/UserService.java:28-59 | A null command gives ["User credentials must be informed."]. Any collected messages are reported all together, with nothing saved. Otherwise the user is saved under a fresh id and the response echoes id, name and email. |
| Users.UserService.SetPassword | src/main/java/com/catalog/midiacatalog/service/UserService.java:61-88 | Validation runs before the lookup. An unknown email gives "No user found for this email.". On success only that user's password changes, and the reply is "Password reseted successfuly". |
| Users.UserService.Remove | src/main/java/com/catalog/midiacatalog/service/UserService.java:90-101 | A null id gives "User ID must be informed.". A missing id gives "No user found for this ID." and deletes nothing. On success the response is the deleted record and the id is gone. |
| Users.UserService.Login | src/main/java/com/catalog/midiacatalog/service/UserService.java:103-131 | Shape errors come before any lookup. An unknown email gives not found. A stored password that differs gives "Wrong password or email address. Please try again.". Otherwise the result is true. |
| Users.UserService.CollectUpdateErrors | src/main/java/com/catalog/midiacatalog/service/UserService.java:135-161 | The messages `update` collects are exactly those of the specification `UpdateErrors`. |
| Users.UserService.Update | src/main/java/com/catalog/midiacatalog/service/UserService.java:133-180 | Validation runs before the lookup. A missing id then gives "User not found.". On success only the supplied non-blank fields of that user change, and the response echoes id, name and email. |
| Users.UserService.GetUser | src/main/java/com/catalog/midiacatalog/service/UserService.java:182-192 | A null id gives "User id must be informed.". A missing id gives "User not found.". Otherwise the stored user's id, name and email. |
| Users.UserService.GetAllUsers | src/main/java/com/catalog/midiacatalog/service/UserService.java:194-205 | An empty page gives "No users found in database.". Otherwise one response per id on the page, in page order. |
| LegacyUsers.UserService.FindByEmail | src/main/java/com/catalog/midiaCatalog/service/UserService.java:37 | Returns the stored user holding the email, or nothing exactly when no user holds it. |
| LegacyUsers.UserService.Register | src/main/java/com/catalog/midiaCatalog/service/UserService.java:24-55 | Same rules as the current copy: messages ordered name, email, password, and nothing saved on error. On success the supplied name, email and password are stored, and the response omits the password. |
| LegacyUsers.UserService.SetPassword | src/main/java/com/catalog/midiaCatalog/service/UserService.java:57-84 | Validation runs before the lookup, and an unknown email gives not found. On success only the password changes, and the reply is "Passowrd rested successfuly". |
| LegacyUsers.UserService.Remove | src/main/java/com/catalog/midiaCatalog/service/UserService.java:88-99 | A null id gives "User ID must be informed.". A missing id gives "No user found for this ID." and deletes nothing. |
| Catalog.ProjectActors | src/main/java/com/catalog/midiacatalog/dto/Midia/DetailedMidiaResponseDTO.java:47-50 | The projection has one entry per actor, and the i-th entry is the i-th actor's (id, name). |
| Catalog.Detailed | src/main/java/com/catalog/midiacatalog/dto/Midia/DetailedMidiaResponseDTO.java:35-52 | The eight scalar fields are copied verbatim. A null actor list gives an empty projection. Otherwise the projection has the same length and order as the list. |
| Catalog.ActorsAt | src/main/java/com/catalog/midiacatalog/service/MidiaService.java:163 | A media item's actors are the stored actors of its linked ids, one per id, in link order. |
| Midias.MissingIdsMembers | src/main/java/com/catalog/midiacatalog/service/MidiaService.java:52-59 | Exactly the supplied ids that the actor store lacks are reported missing. |
| Midias.MissingIds | src/main/java/com/catalog/midiacatalog/service/MidiaService.java:52-59 | The ids the loop reports missing: no more than were supplied, and none of them names a stored actor. |
| Midias.FoundActors | src/main/java/com/catalog/midiacatalog/service/MidiaService.java:52-59 | The actors the loop collects: together with the missing ids they account for every supplied id. |
| Midias.ActorsNotFoundMessage | src/main/java/com/catalog/midiacatalog/service/MidiaService.java:62 | The not-found message starts with "The following actor IDs were not found: [" and ends with "]". |
| Midias.NothingMissing | src/main/java/com/catalog/midiacatalog/service/MidiaService.java:61-63 | The resolution fails exactly when some supplied id names no stored actor. |
| Midias.FoundAllActors | src/main/java/com/catalog/midiacatalog/service/MidiaService.java:52-59 | When every id resolves, the collected actors are the stored actors of the ids, in order, repeats included. |
| Midias.IdsOf | src/main/java/com/catalog/midiacatalog/service/MidiaService.java:67-69 | The linked ids are the ids of the collected actors, in order. |
| Midias.ResolvedIdsAreInput | src/main/java/com/catalog/midiacatalog/service/MidiaService.java:47-69 | When nothing is missing, the saved links are exactly the supplied id list, and every link names a stored actor. |
| Midias.NotFoundMessageNamesEachMissing | src/main/java/com/catalog/midiacatalog/service/MidiaService.java:61-62 | The not-found message names every supplied id that the actor store lacks. |
| Midias.RegisterErrorsCharacterised | src/main/java/com/catalog/midiacatalog/service/MidiaService.java:36-45 | `register` collects nothing exactly when a non-blank title and a type are given. With neither, it collects both messages, title first. |
| Midias.RegisterErrors | src/main/java/com/catalog/midiacatalog/service/MidiaService.java:36-42 | At most two messages. The title message appears exactly when the title is null or trims to empty, and the type message exactly when the type is null. |
| Midias.DetailedOf | src/main/java/com/catalog/midiacatalog/service/MidiaService.java:172-176 | The detailed response of a stored media item copies its id, title, type, release year, director, synopsis, genre and poster URL. Its i-th actor entry is (id, name) of the stored actor linked i-th. |
| Midias.PatchScalars | src/main/java/com/catalog/midiacatalog/service/MidiaService.java:101-120 | The title changes only to a non-blank title. Every other scalar changes exactly when a value is supplied. Id and links are untouched. |
| Midias.MidiaService.ResolveActors | src/main/java/com/catalog/midiacatalog/service/MidiaService.java:52-59 | The lookup loop collects exactly the found actors and, separately, all missing ids, both in input order. |
| Midias.MidiaService.LinkedIds | src/main/java/com/catalog/midiacatalog/service/MidiaService.java:49-65 | The missing ids are exactly those the loop reports. When none are missing, the links saved are the supplied ids and each names a stored actor. |
| Midias.MidiaService.Relink | src/main/java/com/catalog/midiacatalog/service/MidiaService.java:123-143 | An empty list clears the links. A non-empty list reports all its missing ids, or, when none are missing, becomes the new links in the order given. |
| Midias.MidiaService.SaveNew | src/main/java/com/catalog/midiacatalog/service/MidiaService.java:71 | Saving a new media item stores it under the next fresh id, appends that id to the listing and advances the counter. |
| Midias.MidiaService.Register | src/main/java/com/catalog/midiacatalog/service/MidiaService.java:32-74 | A null command gives "Midia data must be informed.". Title and type messages are collected in that order. Missing actors give one not-found error listing them all. Nothing is saved on any failure. On success the media item is stored under a fresh id with the supplied fields and links, and its (id, title, type) is returned. |
| Midias.MidiaService.Remove | src/main/java/com/catalog/midiacatalog/service/MidiaService.java:76-87 | A null id gives "Midia ID must be informed.". A missing id gives "No midia found for this ID." and deletes nothing. On success the id is gone and the deleted item's summary is returned. |
| Midias.MidiaService.Update | src/main/java/com/catalog/midiacatalog/service/MidiaService.java:89-149 | Checks fail fast in order: null id, then null data, then a missing record, each saving nothing. A null actor list keeps the links, an empty one clears them, and any other replaces them or reports every missing id without saving. On success no other item changes. |
| Midias.MidiaService.GetMidia | src/main/java/com/catalog/midiacatalog/service/MidiaService.java:151-164 | A null id gives "Midia id must be informed.". A missing id gives "Midia not found.". Otherwise every scalar field is returned, with one (id, name) entry per linked actor, in link order. |
| Midias.MidiaService.GetAllMidias | src/main/java/com/catalog/midiacatalog/service/MidiaService.java:166-177 | An empty page gives "No users found in database." (the literal as written). Otherwise one detailed response per id on the page, in page order. |
| LegacyActors.RegisterActorError | src/main/java/com/catalog/midiaCatalog/service/ActorService.java:19-25 | Fail-fast, name first. A null or empty name gives "Actor name must be informed". Otherwise a birth date strictly after today gives "Birth date cannot be in the future". A date equal to today passes. |
| LegacyActors.ActorService.RegisterActor | src/main/java/com/catalog/midiaCatalog/service/ActorService.java:18-33 | At most one message, and nothing saved on failure. On success an enabled actor with no media and exactly the supplied name and birth date is saved, and the reply carries that name and date. |

## Left out

- Controllers, `GlobalExceptionHandler` and HTTP status mapping are not part of this model. They are web adapters around the services.
- Repository interfaces are replaced by in-memory maps. Storage order is id order, and `findAll(pageable)` is a slice of it. The pageable's sort is not modelled.
- Storage ids come from a counter starting at 1, standing in for database identity generation.
- Bean-validation annotations (`@NotBlank`, `@Past`, `@Pattern`, `@Min`, `@Max`) are enforced by the framework, not by the services, so they are not modelled.
- The `Evaluation` entity has no behaviour and is not modelled.
- The newer `ActorService` source is not part of this model. Only the actor store that `MidiaService` reads from is modelled, and it is read-only.
- The JPA `mappedBy` synchronisation between `Actor.midias` and `Midia.actors` is left out. A media item keeps its linked actor ids in order; the actors' side is not kept.
- `Midias.MidiaService.Update`: the source sets the scalar fields on the managed entity before resolving actor ids. A later not-found error then leaves those changes to JPA dirty checking, outside an explicit transaction. The model saves nothing on that path.
- Java reference comparisons are modelled as value comparisons. These are `!=` on passwords in `login`, and `== ""` on the actor name in the older `ActorService`.
- A Java `NullPointerException` is not modelled. The cases are a null DTO in the older `ActorService`, a null birth date there, and a null element in a media command's `actorIds`, which `actorRepository.findById` rejects (`MidiaService.java` lines 53 and 130). The birth date is modelled as always present, and actor ids as plain integers that cannot be null.
- `LegacyActors.ActorService.RegisterActor`: the source's repository field has no injection annotation, so `save` would fail at runtime. The model treats the repository as present.
- `LegacyActors.ActorService.RegisterActor`: the older service calls `Date.after` on a `LocalDate`. Dates are modelled as day numbers, and the clock's current day is a parameter.
- `DataValidationException`'s list constructor keeps the caller's list by reference. The model stores a copy, so later changes to the caller's list through aliasing are not modelled.
- `MidiaUpdateDTO`, `DataNotFoundException` and the `Midiatype` enum are not part of this model. The update command has the fields the service reads, and the enum has the two values `MOVIE` and `SERIES`.
- `Midiatype.toString().trim().isEmpty()` is never true for an enum constant, so only a null type is reported.
- Login's "true" stands in for a session token the source leaves as a to-do.
