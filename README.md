# Anime store and REST error payloads

A Dafny model of the two parts of the Spring Boot "anime" tutorial service that hold logic of their own:

- **AnimeService** keeps an in-memory table of `Anime(id, name)` records. The table starts with two records. Its operations are `listAll`, `findById` (a linear search that throws BAD_REQUEST "Anime not found"), `save` (stamps a random id and appends), `delete` (finds the record, then removes it with `List.remove(Object)`) and `replace` (delete by id, then append). It is modelled as the class `Service.AnimeService` with a `lista: seq<Anime>` field that its methods reassign. The module `AnimeList` gives the same operations as functions on sequences, with the lemmas about them. Thrown exceptions become `Result`/`Outcome` values.
- **RestExceptionHandler** builds the JSON detail record for a `BadRequestException` and for a failed bean validation. In the validation record, the field names and the default messages are each joined with `", "`. These are pure functions in `Handler`. `Collectors.joining` is modelled in `Joining`, together with a splitting function. Splitting undoes joining only for a non-empty list of parts none of which contains a comma. Default messages may contain commas, so this holds for `fields` only under that condition and is not claimed for `fieldsMessage`.

Inputs the code reads from its environment are parameters here:
- the clock (`LocalDateTime.now()`) is a `Timestamp`;
- the exception's message and class name are fields of `ThrownException`;
- the random id in `save` is a value chosen with `:|`, and only its range is known.

Files: `wrappers.dfy`, `http_status.dfy`, `anime_list.dfy`, `anime_service.dfy`, `joining.dfy`, `rest_exception_handler.dfy`.

## Model

| member | source | states |
|---|---|---|
| Service.AnimeService.constructor | src/main/java/academy/devdojo/springboot2/service/AnimeService.java:21-25 | the table starts as exactly `(1, "Boku No Hero")` then `(2, "Berserk")` |
| Service.AnimeService.ListAll | src/main/java/academy/devdojo/springboot2/service/AnimeService.java:27-29 | returns the current contents unchanged |
| Service.AnimeService.FindById | src/main/java/academy/devdojo/springboot2/service/AnimeService.java:31-38 | the search loop returns the first record whose id matches; it fails with BAD_REQUEST "Anime not found" exactly when no record has the id; it changes nothing |
| Service.AnimeService.Save | src/main/java/academy/devdojo/springboot2/service/AnimeService.java:40-44 | the saved record keeps its name and gets an id v with 3 <= v < 100000; it is appended as the new last element; the earlier elements are unchanged |
| Service.AnimeService.Delete | src/main/java/academy/devdojo/springboot2/service/AnimeService.java:46-48 | fails with not-found, list unchanged, exactly when the id is absent; otherwise the new list is the old one without the first record carrying the id |
| Service.AnimeService.Replace | src/main/java/academy/devdojo/springboot2/service/AnimeService.java:50-53 | fails before any change exactly when the id is absent; otherwise the new list is the old one without the first record carrying the id, followed by the argument, so the length is kept |
| AnimeList.FirstIndex | src/main/java/academy/devdojo/springboot2/service/AnimeService.java:31-32 | returns some index exactly when the id occurs; that index holds the id and no earlier index does |
| AnimeList.Find | src/main/java/academy/devdojo/springboot2/service/AnimeService.java:31-37 | fails with the not-found error exactly when the id is absent; otherwise the result carries the id and is an element of the list |
| AnimeList.FindIsFirstMatch | src/main/java/academy/devdojo/springboot2/service/AnimeService.java:31-37 | a successful lookup yields the element at the first position whose id matches |
| AnimeList.RemoveFirst | src/main/java/academy/devdojo/springboot2/service/AnimeService.java:47 | `List.remove(Object)` shortens the list by one when the object is present and leaves it as it was otherwise |
| AnimeList.RemoveFirstAtFirstMatch | src/main/java/academy/devdojo/springboot2/service/AnimeService.java:46-47 | removing the record that the lookup found removes exactly the element at its index; all other elements keep their order |
| AnimeList.Deleted | src/main/java/academy/devdojo/springboot2/service/AnimeService.java:46-48 | the function form of `delete`: fails with the not-found error exactly when the id is absent, otherwise shortens the list by one; which element goes and the order of the rest are stated by DeletedRemovesFirstMatch and DeletedCounts |
| AnimeList.DeletedRemovesFirstMatch | src/main/java/academy/devdojo/springboot2/service/AnimeService.java:46-47 | delete fails with not-found exactly when the id is absent; on success it drops the first match only and the length goes down by one |
| AnimeList.DeletedCounts | src/main/java/academy/devdojo/springboot2/service/AnimeService.java:46-47 | a successful delete lowers the number of records with that id by one; the count for every other id is unchanged |
| AnimeList.SecondDeleteFails | src/main/java/academy/devdojo/springboot2/service/AnimeService.java:31-48 | if an id occurs once, the first delete succeeds and a second delete of that id fails with not-found, so deletion is not idempotent |
| AnimeList.Replaced | src/main/java/academy/devdojo/springboot2/service/AnimeService.java:50-53 | the function form of `replace`: fails with the not-found error exactly when the id is absent, otherwise keeps the length and ends with the argument; the full result is stated by ReplacedMovesToEnd and ReplacedKeepsCount |
| AnimeList.ReplacedMovesToEnd | src/main/java/academy/devdojo/springboot2/service/AnimeService.java:50-53 | replace fails with not-found exactly when the id is absent; on success the length is kept and the result is the list without the first match, then the argument |
| AnimeList.ReplacedKeepsCount | src/main/java/academy/devdojo/springboot2/service/AnimeService.java:50-53 | a successful replace keeps the number of records that carry the replaced id |
| Joining.Join | src/main/java/academy/devdojo/springboot2/handler/RestExceptionHandler.java:65-66 | the joined string is as long as all parts together plus one separator between each pair of consecutive parts |
| Joining.JoinAppend | src/main/java/academy/devdojo/springboot2/handler/RestExceptionHandler.java:65-66 | appending an element to a non-empty list of parts appends the separator and then that element, so the parts appear in stream order (appending to the empty list gives the element alone) |
| Joining.SplitJoin | src/main/java/academy/devdojo/springboot2/handler/RestExceptionHandler.java:65 | when no part contains a comma, splitting the joined string gives back the non-empty list of parts |
| Handler.FieldNames | src/main/java/academy/devdojo/springboot2/handler/RestExceptionHandler.java:65 | one field name per error, in the order of the error list |
| Handler.DefaultMessages | src/main/java/academy/devdojo/springboot2/handler/RestExceptionHandler.java:66 | one default message per error, in the same order; a null message is written as "null" |
| Handler.HandlerBadRequestException | src/main/java/academy/devdojo/springboot2/handler/RestExceptionHandler.java:28-39 | response status BAD_REQUEST; body status 400, title "Bad Requests Exception, check the Documentation", details the exception message, developerMessage the exception class name |
| Handler.HandleMethodArgumentNotValid | src/main/java/academy/devdojo/springboot2/handler/RestExceptionHandler.java:62-78 | response status BAD_REQUEST whatever status is passed in; body status 400 and title "Not valid, check the field(s) below"; details and developerMessage taken from the exception; with no errors both joined strings are empty, with one error each is that single value |
| Handler.ValidationPayloadAppend | src/main/java/academy/devdojo/springboot2/handler/RestExceptionHandler.java:64-66 | one more error after a non-empty error list appends ", field" to `fields` and ", message" to `fieldsMessage`, so both strings follow the order of the error list |
| Handler.FieldsListTheErrors | src/main/java/academy/devdojo/springboot2/handler/RestExceptionHandler.java:64-65 | for a non-empty error list whose field names have no comma, `fields` split at ", " is the list of field names |

## Left out

- Sharing: the Java list is a `static` field that every `AnimeService` instance shares. Here it is one object's field, and the constructor plays the role of the static initializer. Thread safety is not modelled.
- Aliasing: the Java list and its records are objects shared by reference. The model treats both as values and assumes there is no aliasing. The entries below name three consequences that the model does not capture.
- Service.AnimeService.ListAll: returns a snapshot of the contents. The Java `listAll` hands out the store's own list, so a caller's `add`, `remove` or `clear` on it changes the store, and a list kept by a caller sees later saves and deletes.
- Service.AnimeService.Save: assumes its argument is not an object already in the list, which is why it can promise that earlier elements are unchanged. The Java `save` writes the new id into the caller's `Anime` object, so saving a record that is already stored (the result of `findById`, say) changes that earlier element too. A later change to a stored record through another reference is not reflected either.
- Null records: a null `Anime` passed to `save` or `replace` throws `NullPointerException`. Null names cannot be represented either. The model's records are never null.
- Null ids: Java ids are nullable `Long`s. Every id in the list is non-null, because the seed, `save` and a successful `replace` all leave it so. A null argument id matches nothing and so behaves like an absent id. The model uses unbounded `int` ids and has no null. The ids that `save` draws are well inside 64 bits.
- Randomness: `ThreadLocalRandom` is not modelled. `Service.AnimeService.Save` picks any id in the range, and nothing assumes the id is unused.
- Handler inputs: the `headers` and `request` parameters of `handleMethodArgumentNotValid` are not read and are not modelled. `getMessage()` of a `MethodArgumentNotValidException` is text computed by Spring and is taken as an input.
- BadRequestExceptionDetail.java is not part of this model. Its builder is taken to set the five `ExceptionDetails` fields that the handler sets.
- The controller, security and web configuration, repositories, mappers and the date utility are framework glue around these calls and are not modelled.
