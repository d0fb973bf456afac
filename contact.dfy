/** One phone-book entry. A contact is an immutable value: its constructor
    replaces missing or blank text by "" and a missing phone list by the
    empty list, and keeps everything else exactly as given (no trimming, no
    filtering of the phone list). Its getters return the stored fields. */
module Contacts {
  import opened Optional
  import opened FormatDataChecker

  /** A calendar date (java.time.LocalDate), compared by value. Calendar
      validity is the caller's business and is not modelled. */
  datatype Date = Date(year: int, month: int, day: int)

  /** The stored contact; each destructor is the matching getter. */
  datatype Contact = Contact(
    name: string,
    surname: string,
    patronymic: string,
    address: string,
    phoneNumbers: seq<string>,
    birthday: Option<Date>,
    email: string)

  /** A stored text field: never null, and either "" or not blank. */
  predicate IsStoredText(s: string) {
    s == "" || !IsBlank(s)
  }

  /** Every text field of `c` is a stored text field. */
  predicate WellFormed(c: Contact) {
    && IsStoredText(c.name) && IsStoredText(c.surname) && IsStoredText(c.patronymic)
    && IsStoredText(c.address) && IsStoredText(c.email)
  }

  /** The rule the constructor applies to each text field. */
  function StoredText(text: Option<string>): (r: string)
    ensures r == "" <==> IsNullOrBlank(text)
    ensures r != "" ==> r == text.value
    ensures IsStoredText(r)
  {
    if IsNullOrBlank(text) then "" else text.value
  }

  /** The constructor `new Contact(...)`: total over all inputs. */
  function NewContact(
    name: Option<string>, surname: Option<string>, patronymic: Option<string>,
    address: Option<string>, phoneNumbers: Option<seq<string>>,
    birthday: Option<Date>, email: Option<string>): (c: Contact)
    ensures WellFormed(c)
    ensures IsNullOrBlank(name) ==> c.name == ""
    ensures !IsNullOrBlank(name) ==> c.name == name.value
    ensures IsNullOrBlank(surname) ==> c.surname == ""
    ensures !IsNullOrBlank(surname) ==> c.surname == surname.value
    ensures IsNullOrBlank(patronymic) ==> c.patronymic == ""
    ensures !IsNullOrBlank(patronymic) ==> c.patronymic == patronymic.value
    ensures IsNullOrBlank(address) ==> c.address == ""
    ensures !IsNullOrBlank(address) ==> c.address == address.value
    ensures phoneNumbers.None? ==> c.phoneNumbers == []
    ensures phoneNumbers.Some? ==> c.phoneNumbers == phoneNumbers.value
    ensures c.birthday == birthday
    ensures IsNullOrBlank(email) ==> c.email == ""
    ensures !IsNullOrBlank(email) ==> c.email == email.value
  {
    Contact(
      StoredText(name), StoredText(surname), StoredText(patronymic),
      StoredText(address), if phoneNumbers.Some? then phoneNumbers.value else [],
      birthday, StoredText(email))
  }

  /** Rebuilding a contact from its own getters gives the same contact, and
      a well-formed contact is exactly one the constructor can produce. */
  lemma {:induction false} RebuildFromGetters(c: Contact)
    ensures WellFormed(c) <==>
      NewContact(Some(c.name), Some(c.surname), Some(c.patronymic), Some(c.address),
                 Some(c.phoneNumbers), c.birthday, Some(c.email)) == c
  {
    var d := NewContact(Some(c.name), Some(c.surname), Some(c.patronymic), Some(c.address),
                        Some(c.phoneNumbers), c.birthday, Some(c.email));
    if d == c {
      assert WellFormed(d);
    }
  }

  /** The constructor does not trim: non-blank text is stored with its
      surrounding white space, unlike makeNotBlank. */
  lemma ConstructorKeepsSurroundingSpace()
    ensures NewContact(Some(" Ivan "), None, None, None, None, None, None).name == " Ivan "
    ensures MakeNotBlank(Some(" Ivan ")) == "Ivan"
  {
    assert !IsBlank(" Ivan ") by { assert !IsSpace(" Ivan "[1]); }
    assert LeadingSpaces(" Ivan ") == 1 by {
      assert " Ivan "[1..] == "Ivan ";
    }
    assert TrailingSpaces(" Ivan ") == 1 by {
      assert " Ivan "[..5] == " Ivan";
    }
    assert " Ivan "[1..5] == "Ivan";
  }
}
