# Phone book record store — a Dafny model

This project models the backend of a console phone book written in Java
(package `backend`). It has three parts:

- **FormatDataChecker** (`format_data_checker.dfy`) holds the string helpers.
  - `makeNotBlank` maps null or blank text to `""` and trims anything else.
  - `transformStringForSearch` normalises text for search. It drops white space, drops non-word characters and lower-cases the rest.
  - `isPhoneNumber` and `isEmail` check fixed regular expressions. Each is modelled as a hand-written recogniser that splits the input into the groups of its one pattern.
- **Contacts** (`contact.dfy`) models the immutable `Contact` value.
  - The constructor stores `""` for null or blank text and an empty list for a null phone list.
  - It keeps every other input exactly as given.
  - The getters are the datatype's fields.
- **PhoneBooks** (`phone_book.dfy`) models the `PhoneBook` class. Its state is an ordered `contacts` sequence plus a ghost `snapshot`, which stands for the data file.
  - `AddContact` and `DeleteContact` change the list and then overwrite the whole snapshot.
  - The three searches filter the list stably with a prefix test on normalised text. They and `GetAllContacts` are functions that only read the list.
  - `PhoneNumberTest` is the early-exit loop of the phone-number search.

Java `null` is `Option.None`. A `java.time.LocalDate` is the value type `Date(year, month, day)`, which is compared by equality.

Modelling assumptions:
- `String.isBlank` and `String.trim` share one notion of white space: the characters at or below U+0020, which is trim's set.
- `toLowerCase` is ASCII lower-casing. Only `[A-Za-z0-9_]` reach it, so this is exact except for locale-specific mappings such as the Turkish dotless i (see Left out).

The model follows the code in these places:
- The `Contact` constructor does not trim non-blank text and does not drop blank phone entries (`src/main/java/backend/Contact.java:28-30,53-58`).
- The duplicate check in `addContact` compares the raw arguments, not the normalised ones (see Findings).
- `Contact.java` declares the birthday as a `String`. `PhoneBook` and the console use it as an optional `LocalDate` (`src/main/java/backend/PhoneBook.java:46,108-112`), so the model uses `Option<Date>`.
- `PhoneBook.transformStringForSearch` (`src/main/java/backend/PhoneBook.java:128-132`) is a private copy of the `FormatDataChecker` chain. The model defines it once, as `FormatDataChecker.TransformForSearch`.

## Model

| member | source | states |
|---|---|---|
| FormatDataChecker.Trim | src/main/java/backend/FormatDataChecker.java:20 | `String.trim` gives a contiguous part of the input with only white space cut away on each side. It is empty exactly when the input is blank, and otherwise starts and ends with non-white space. |
| FormatDataChecker.MakeNotBlank | src/main/java/backend/FormatDataChecker.java:16-22 | Null or blank input gives `""`. Any other input gives a non-empty substring of it, with white space removed before and after and no white space at either end. |
| FormatDataChecker.MakeNotBlankIdempotent | src/main/java/backend/FormatDataChecker.java:16-22 | Applying `makeNotBlank` to its own result changes nothing. |
| FormatDataChecker.IsNullOrBlank | src/main/java/backend/FormatDataChecker.java:17 | `Objects.isNull(str)` or `str.isBlank()`: a string that is not null-or-blank is present and non-empty. MakeNotBlank's row gives its partner: the test holds exactly when `makeNotBlank` returns `""`. |
| FormatDataChecker.RemoveRegexSpace | src/main/java/backend/FormatDataChecker.java:54 | `replaceAll("\\s+", "")` leaves no regex white space and never lengthens the string. RemoveRegexSpaceCounts and RemoveRegexSpaceAppend add that every other character is kept, with its count and in its order. |
| FormatDataChecker.RemoveRegexSpaceCounts | src/main/java/backend/FormatDataChecker.java:54 | After the white-space pass, each `\s` character occurs zero times and every other character occurs exactly as often as in the input. |
| FormatDataChecker.RemoveRegexSpaceAppend | src/main/java/backend/FormatDataChecker.java:54 | The white-space pass distributes over concatenation, so the kept characters stay in their original order. |
| FormatDataChecker.RemoveNonWord | src/main/java/backend/FormatDataChecker.java:55 | `replaceAll("\\W", "")` leaves only `[A-Za-z0-9_]` and never lengthens the string. RemoveNonWordCounts and RemoveNonWordAppend add that every word character is kept, with its count and in its order. |
| FormatDataChecker.RemoveNonWordCounts | src/main/java/backend/FormatDataChecker.java:55 | After the non-word pass, each word character occurs exactly as often as in the input, and no other character occurs. |
| FormatDataChecker.RemoveNonWordAppend | src/main/java/backend/FormatDataChecker.java:55 | The non-word pass distributes over concatenation, so the kept characters stay in their original order. |
| FormatDataChecker.ToLowerCase | src/main/java/backend/FormatDataChecker.java:56 | `toLowerCase()` keeps the length of the string. LowerCaseLeavesNoCapitals states which character each position becomes. |
| FormatDataChecker.LowerCaseLeavesNoCapitals | src/main/java/backend/FormatDataChecker.java:56 | After lower-casing no capital letter is left, each capital has become its own small letter (code point plus 32, so `'A'` becomes `'a'`), every other character is unchanged, and lower-casing again changes nothing. |
| FormatDataChecker.TransformForSearch | src/main/java/backend/FormatDataChecker.java:53-57 | The normalised string is never longer than the input and uses only `[a-z0-9_]`. |
| FormatDataChecker.WhitespacePassIsRedundant | src/main/java/backend/FormatDataChecker.java:54-55 | The white-space pass removes nothing the non-word pass would keep, so normalising means keeping the word characters and lower-casing them. |
| FormatDataChecker.TransformChar | src/main/java/backend/FormatDataChecker.java:53-57 | A single character normalises to itself lower-cased if it is a word character, and to nothing otherwise. This covers white space, punctuation and Cyrillic letters. |
| FormatDataChecker.TransformAppend | src/main/java/backend/FormatDataChecker.java:53-57 | Normalisation distributes over concatenation, so it keeps the surviving characters in their original order. Together with TransformChar this determines it. |
| FormatDataChecker.TransformIgnoresCase | src/main/java/backend/FormatDataChecker.java:53-57 | A string and its upper-cased form normalise to the same search string, so capitals never matter to a search. |
| FormatDataChecker.TransformIdempotent | src/main/java/backend/FormatDataChecker.java:53-57 | Normalising twice gives the same result as normalising once. |
| FormatDataChecker.TransformFixesSearchStrings | src/main/java/backend/FormatDataChecker.java:53-57 | A string over `[a-z0-9_]` normalises to itself. In particular `""` normalises to `""`. |
| FormatDataChecker.IsPhoneNumber | src/main/java/backend/FormatDataChecker.java:31-33 | `isPhoneNumber` accepts exactly the strings that split into an optional trunk code, an optional area code and a run of 3 to 15 digits, dashes or spaces. Every accepted string has 3 to 24 characters. |
| FormatDataChecker.PhoneNumberShape | src/main/java/backend/FormatDataChecker.java:31-33 | An accepted phone number has 3 to 24 characters, each a digit, `+`, `(`, `)`, `-` or a space. |
| FormatDataChecker.DigitsArePhoneNumber | src/main/java/backend/FormatDataChecker.java:31-33 | Any string of 3 to 15 digits is accepted. |
| FormatDataChecker.DashedMobileIsPhoneNumber | src/main/java/backend/FormatDataChecker.java:32 | `8-900-123-45-67` is accepted. |
| FormatDataChecker.BracketedMobileIsPhoneNumber | src/main/java/backend/FormatDataChecker.java:32 | `+7 (900) 123-45-67` is accepted. |
| FormatDataChecker.IsEmail | src/main/java/backend/FormatDataChecker.java:41-45 | `isEmail` accepts exactly the strings that split at an `@` into a local part and a domain of the pattern. Every accepted string holds an `@`; EmailShape adds that it holds exactly one, and what comes before and after it. |
| FormatDataChecker.EmailShape | src/main/java/backend/FormatDataChecker.java:41-45 | An accepted address has exactly one `@`, starts with an ASCII letter or digit, and ends with `.` followed by two or more ASCII letters. |
| FormatDataChecker.DottedAddressIsEmail | src/main/java/backend/FormatDataChecker.java:43 | `ivan.petrov@mail.ru` is accepted. |
| FormatDataChecker.NoTopLevelDomainIsNotEmail | src/main/java/backend/FormatDataChecker.java:43 | An address is rejected if no `.` stands at least three characters before its end. |
| FormatDataChecker.ShortDomainsAreNotEmail | src/main/java/backend/FormatDataChecker.java:43 | `ivan@mail` and `ivan@mail.r` are rejected. |
| Contacts.StoredText | src/main/java/backend/Contact.java:25-30 | The stored text is `""` exactly when the input is null or blank. Otherwise it is the input unchanged, so it is never null and is either `""` or non-blank. |
| Contacts.NewContact | src/main/java/backend/Contact.java:22-73 | The constructor is total. Each of name, surname, patronymic, address and email is `""` for null or blank input and the untrimmed input otherwise. A null phone list becomes `[]`; any other list is kept with its order, duplicates and blank entries. A null birthday is absent. Every result is well formed. |
| Contacts.RebuildFromGetters | src/main/java/backend/Contact.java:22-101 | Rebuilding a contact from its getters gives the same contact exactly when the contact is well formed, so the getters return what the constructor stored. |
| Contacts.ConstructorKeepsSurroundingSpace | src/main/java/backend/Contact.java:28-30 | `" Ivan "` is stored as `" Ivan "`, while `makeNotBlank` gives `"Ivan"`. |
| PhoneBooks.Find | src/main/java/backend/PhoneBook.java:122-126 | The result is an order-preserving subsequence of the list. It holds each passing contact as often as the list does and no other contact. If every contact passes, the result is the whole list. |
| PhoneBooks.FindIsUnique | src/main/java/backend/PhoneBook.java:122-126 | Any order-preserving subsequence that holds exactly the passing contacts, with their counts, equals Find's result. So Find's contract fixes the result. |
| PhoneBooks.RemoveFirst | src/main/java/backend/PhoneBook.java:67 | `List.remove` returns the list unchanged when the element is absent. Otherwise it cuts out the element at its first index. Exactly one copy leaves the multiset. |
| PhoneBooks.FullNameStartsWith | src/main/java/backend/PhoneBook.java:76-81 | The test of findByFullName. The empty query matches every contact. A query that matches holds only `[a-z0-9_]`, since it is a prefix of a normalised string. |
| PhoneBooks.PhoneNumberStartsWith | src/main/java/backend/PhoneBook.java:90-99 | The test of findByPhoneNumber. A contact without phone numbers never matches. The empty query matches exactly the contacts that have at least one number. |
| PhoneBooks.BornOn | src/main/java/backend/PhoneBook.java:107-113 | The test of findByBirthday holds exactly when the date is present and equals the contact's birthday. A contact without a birthday, or a null date, never matches. |
| PhoneBooks.PhoneNumberTest | src/main/java/backend/PhoneBook.java:90-99 | The loop returns true exactly when some phone number, normalised, starts with the normalised query. A contact without phone numbers never matches. |
| PhoneBooks.OwnNameFindsContact | src/main/java/backend/PhoneBook.java:71-83 | Searching by a contact's own surname, or its surname followed by its name, finds it. |
| PhoneBooks.NameSearchIgnoresCase | src/main/java/backend/PhoneBook.java:71-83 | Upper-casing the query, or the stored surname, name and patronymic, changes no answer of the name test. |
| PhoneBooks.TransformKeepsLeadingDigit | src/main/java/backend/FormatDataChecker.java:53-57 | A leading digit survives normalisation, in front of the normalised rest. |
| PhoneBooks.TransformDropsLeadingDash | src/main/java/backend/FormatDataChecker.java:53-57 | A leading dash is dropped by normalisation. |
| PhoneBooks.DashAfterTrunkDropped | src/main/java/backend/PhoneBook.java:93 | Any `d-ddd` normalises to its four digits, so a number written with a dash after the trunk digit is found by its digits. |
| PhoneBooks.DashedNumberMatchesPrefix | src/main/java/backend/PhoneBook.java:85-101 | A contact with phone `8-900-123-45-67` matches the query `8900`. |
| PhoneBooks.IdentityTaken | src/main/java/backend/PhoneBook.java:53-59 | The duplicate check as written. It can only reject when all three arguments are non-null. Over well-formed contacts, it can only reject when each argument is `""` or non-blank, so a blank non-empty argument never matches. |
| PhoneBooks.RawCheckImpliesStoredCheck | src/main/java/backend/PhoneBook.java:53-59 | Over well-formed contacts, whatever the raw duplicate check rejects, the check on stored triples rejects too. |
| PhoneBooks.RepeatRejectedWhenAllPartsPresent | src/main/java/backend/PhoneBook.java:53-63 | When name, surname and patronymic are all present and non-blank, repeating the same arguments is rejected. |
| PhoneBooks.RepeatWithNullPartAccepted | src/main/java/backend/PhoneBook.java:47-63 | Adding `(null, "Ivanov", null)` to a list that already holds the contact it builds passes both checks. The list then holds two contacts with one identity. |
| PhoneBooks.RepeatWithBlankPartsAccepted | src/main/java/backend/PhoneBook.java:47-63 | Adding `("  ", "Ivanov", "  ")` to a list that already holds the contact it builds passes both checks. The list then holds two contacts with the identity `("", "Ivanov", "")`. |
| PhoneBooks.RepeatRejectedByStoredCheck | src/main/java/backend/PhoneBook.java:53-63 | With the check on stored triples, repeating the arguments of a successful add is always rejected. |
| PhoneBooks.AppendKeepsIdentitiesUnique | src/main/java/backend/PhoneBook.java:53-63 | Appending a contact whose stored triple is free keeps all identity triples distinct. |
| PhoneBooks.RemoveKeepsIdentitiesUnique | src/main/java/backend/PhoneBook.java:66-69 | Deleting keeps identity triples distinct. |
| PhoneBooks.PhoneBook.constructor | src/main/java/backend/PhoneBook.java:39-40 | Given a non-empty path, a new book satisfies the class invariant, is bound to the given file, holds no contacts, and has written nothing yet. |
| PhoneBooks.PhoneBook.Open | src/main/java/backend/PhoneBook.java:33-42 | A null or blank path is refused. Otherwise the book is bound to the trimmed path, starts with an empty list and satisfies its invariant. |
| PhoneBooks.PhoneBook.Serialize | src/main/java/backend/PhoneBook.java:134-138 | The file is overwritten with the whole current list, not appended to. |
| PhoneBooks.PhoneBook.AddContact | src/main/java/backend/PhoneBook.java:44-64 | Returns true exactly when the identity is not all null-or-blank and no stored contact equals the raw triple. On success it appends exactly the constructed contact after the unchanged earlier ones and sets the snapshot to the new list. Otherwise neither the list nor the snapshot changes. Every stored contact stays well formed. |
| PhoneBooks.PhoneBook.AddContactDistinct | src/main/java/backend/PhoneBook.java:44-64 | The corrected addContact checks the triple the constructor would store. It has the same outcomes otherwise and keeps identity triples distinct. |
| PhoneBooks.PhoneBook.DeleteContact | src/main/java/backend/PhoneBook.java:66-69 | Removes only the first equal contact. If the contact is absent the list is unchanged. In both cases the snapshot is set to the resulting list. Distinct identity triples stay distinct. |
| PhoneBooks.PhoneBook.FindByFullName | src/main/java/backend/PhoneBook.java:71-83 | Returns, in list order, exactly the contacts whose normalised `surname + name + patronymic` starts with the normalised query. A query that normalises to `""` returns the whole list. |
| PhoneBooks.PhoneBook.FindByFullNameIgnoresCase | src/main/java/backend/PhoneBook.java:71-83 | An upper-cased query finds exactly the same contacts, as the console's help text promises (`src/main/java/frontend/console/TextConsole.java:299`). |
| PhoneBooks.PhoneBook.FindByPhoneNumber | src/main/java/backend/PhoneBook.java:85-101 | Returns, in list order, exactly the contacts with some phone number whose normalised form starts with the normalised query. It never returns a contact without phone numbers. |
| PhoneBooks.PhoneBook.FindByBirthday | src/main/java/backend/PhoneBook.java:104-116 | Returns, in list order, exactly the contacts whose birthday is present and equals the date. It never returns a contact with an absent birthday. |
| PhoneBooks.PhoneBook.GetAllContacts | src/main/java/backend/PhoneBook.java:118-120 | Returns the whole list in order. It is a new list holding the same contacts, so adding to or removing from it leaves the book unchanged. Each contact's phone list is still shared with the book (see Left out). |

## Left out

- Loading the data file is not modelled (`src/main/java/backend/PhoneBook.java:140-148`). It relies on the Jackson library and file handles. A newly created file leaves `contacts` unset, and an existing file is read as maps that the class filter then discards. The model starts every book from an empty list and does not claim a save/load round trip.
- Writing the file is modelled only as the ghost `snapshot`. Jackson's JSON layout and I/O errors (`IOException`) are not modelled.
- Contacts.NewContact: the constructor stores the caller's phone list by reference, and `getPhoneNumbers` returns that same list (`src/main/java/backend/Contact.java:57,75-77`). Because `getAllContacts` copies only the outer list, a caller can change a stored contact's numbers, and the next `serialize` writes that change. The model treats the phone list as a value, so it does not capture this aliasing.
- PhoneBooks.PhoneBook.Open: a refused path returns `null`. The source throws `NullPointerException` instead.
- PhoneBooks.PhoneBook.DeleteContact: `Contact` does not override `equals`, so `List.remove` compares references. The model compares values, so it may remove an equal twin that sits earlier in the list.
- FormatDataChecker.IsPhoneNumber, FormatDataChecker.IsEmail: the argument is a non-null string. A null argument makes `Pattern.matches` throw `NullPointerException` in the source (`src/main/java/backend/FormatDataChecker.java:32,42-44`).
- Search queries are non-null strings. A null query makes the source throw `NullPointerException` in `transformStringForSearch`.
- Phone list entries are non-null strings. A null entry makes the phone search throw in the source.
- FormatDataChecker.TransformForSearch: `toLowerCase` is modelled as ASCII lower-casing. Its locale sensitivity, such as the Turkish dotless i, is not modelled.
- FormatDataChecker.IsBlank: Java's `isBlank` uses `Character.isWhitespace`, which differs slightly from trim's set (for example U+2003). The model uses trim's set for both.
- `Date` has no calendar validity. Parsing dates belongs to the console.
- The interactive consoles and the entry point are not part of this model: menus, `Scanner` input, printing, logging and `System.exit`.

## Findings

| source | as written | input that shows it | evidently intended | confidence | as-written member | corrected member |
|---|---|---|---|---|---|---|
| src/main/java/backend/PhoneBook.java:53-59 | The duplicate check compares each stored field with the raw argument. A null argument, or a blank argument other than `""`, never equals the stored `""`. | `addContact(null, "Ivanov", null, ...)` twice, or `"  "` typed as name and patronymic at the console (`src/main/java/frontend/console/TextConsole.java:208-214,265`) twice: both calls return true, and the list holds two contacts with the triple `("", "Ivanov", "")` | A repeat of an existing (name, surname, patronymic) triple is rejected, comparing the triple the constructor stores | medium; not executed | PhoneBooks.RepeatWithNullPartAccepted | PhoneBooks.PhoneBook.AddContactDistinct |
