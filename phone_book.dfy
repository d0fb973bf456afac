/** The phone book: an ordered, in-memory list of contacts bound to a data
    file. Adding and deleting change the list in place and then write the
    whole list to the file; the three searches and the full listing only
    read the list. The file itself is represented by the ghost field
    `snapshot`, the list last written to it. */
module PhoneBooks {
  import opened Optional
  import opened FormatDataChecker
  import opened Contacts

  // ---------------------------------------------------------------------
  // Sequences: prefixes, order-preserving subsequences, filtering, removal
  // ---------------------------------------------------------------------

  /** String.startsWith. */
  predicate StartsWith(s: string, prefix: string) {
    |prefix| <= |s| && s[..|prefix|] == prefix
  }

  /** `r` is obtained from `s` by dropping elements, keeping the order of the rest. */
  ghost predicate IsSubsequence<T>(r: seq<T>, s: seq<T>)
    decreases |s|
  {
    || r == []
    || (s != [] && ((r[0] == s[0] && IsSubsequence(r[1..], s[1..])) || IsSubsequence(r, s[1..])))
  }

  lemma {:induction false} SubsequenceMultiset<T>(r: seq<T>, s: seq<T>)
    requires IsSubsequence(r, s)
    ensures multiset(r) <= multiset(s)
    decreases |s|
  {
    if r != [] {
      assert s == [s[0]] + s[1..];
      if r[0] == s[0] && IsSubsequence(r[1..], s[1..]) {
        SubsequenceMultiset(r[1..], s[1..]);
        assert r == [r[0]] + r[1..];
      } else {
        SubsequenceMultiset(r, s[1..]);
      }
    }
  }

  /** find: the elements that pass `test`, in their order in `cs`
      (`contacts.stream().filter(test).collect(toList())`). */
  function Find(cs: seq<Contact>, test: Contact -> bool): (r: seq<Contact>)
    ensures IsSubsequence(r, cs)
    ensures forall c :: multiset(r)[c] == if test(c) then multiset(cs)[c] else 0
    ensures (forall i | 0 <= i < |cs| :: test(cs[i])) ==> r == cs
  {
    if cs == [] then []
    else
      var rest := Find(cs[1..], test);
      assert cs == [cs[0]] + cs[1..];
      if test(cs[0]) then
        assert ([cs[0]] + rest)[1..] == rest;
        [cs[0]] + rest
      else
        rest
  }

  /** The contract of Find pins its result down: an order-preserving
      subsequence of `cs` holding every passing element as often as `cs`
      does, and nothing else, is Find's result. */
  lemma {:induction false} FindIsUnique(cs: seq<Contact>, test: Contact -> bool, r: seq<Contact>)
    requires IsSubsequence(r, cs)
    requires forall c :: multiset(r)[c] == if test(c) then multiset(cs)[c] else 0
    ensures r == Find(cs, test)
    decreases |cs|
  {
    if cs == [] {
      assert r == [];
    } else {
      var x := cs[0];
      assert cs == [x] + cs[1..];
      if test(x) {
        assert multiset(r)[x] == multiset(cs[1..])[x] + 1;
        if IsSubsequence(r, cs[1..]) {
          SubsequenceMultiset(r, cs[1..]);
          assert false;
        }
        assert r == [x] + r[1..];
        FindIsUnique(cs[1..], test, r[1..]);
      } else {
        assert IsSubsequence(r, cs[1..]);
        FindIsUnique(cs[1..], test, r);
      }
    }
  }

  /** Index of the first element of `s` equal to `x`. */
  function IndexOf(s: seq<Contact>, x: Contact): (i: nat)
    requires x in s
    ensures i < |s| && s[i] == x && x !in s[..i]
  {
    if s[0] == x then 0 else 1 + IndexOf(s[1..], x)
  }

  /** List.remove(Object): the list without the first element equal to `x`;
      the list itself when there is none. */
  function RemoveFirst(s: seq<Contact>, x: Contact): (r: seq<Contact>)
    ensures x !in s ==> r == s
    ensures x in s ==> exists i | 0 <= i < |s| :: s[i] == x && x !in s[..i] && r == s[..i] + s[i + 1..]
    ensures multiset(r) == multiset(s) - multiset{x}
  {
    if x in s then
      var i := IndexOf(s, x);
      assert s == s[..i] + [x] + s[i + 1..];
      s[..i] + s[i + 1..]
    else
      assert multiset(s)[x] == 0;
      s
  }

  // ---------------------------------------------------------------------
  // The search tests
  // ---------------------------------------------------------------------

  /** findByFullName's test: surname, name and patronymic, joined in that
      order and normalised, start with the normalised query `startWithIt`. */
  predicate FullNameStartsWith(c: Contact, startWithIt: string)
    ensures startWithIt == "" ==> FullNameStartsWith(c, startWithIt)
    ensures FullNameStartsWith(c, startWithIt) ==>
              forall i | 0 <= i < |startWithIt| :: IsSearchChar(startWithIt[i])
  {
    StartsWith(TransformForSearch(c.surname + c.name + c.patronymic), startWithIt)
  }

  /** findByPhoneNumber's test: some phone number, normalised, starts with
      the normalised query `startWithIt`. */
  predicate PhoneNumberStartsWith(c: Contact, startWithIt: string)
    ensures PhoneNumberStartsWith(c, startWithIt) ==> c.phoneNumbers != []
    ensures startWithIt == "" ==> (PhoneNumberStartsWith(c, startWithIt) <==> c.phoneNumbers != [])
  {
    assert c.phoneNumbers != [] ==> StartsWith(TransformForSearch(c.phoneNumbers[0]), "");
    exists i | 0 <= i < |c.phoneNumbers| ::
      StartsWith(TransformForSearch(c.phoneNumbers[i]), startWithIt)
  }

  /** findByBirthday's test: the birthday is present and equals `date`
      (LocalDate.equals(null) is false, so a null date matches nothing). */
  predicate BornOn(c: Contact, date: Option<Date>)
    ensures date.None? || c.birthday.None? ==> !BornOn(c, date)
    ensures BornOn(c, date) <==> date.Some? && c.birthday == date
  {
    c.birthday.Some? && date.Some? && c.birthday.value == date.value
  }

  /** A contact is found by its own surname, and by its surname followed by
      its name, however either is spaced, punctuated or capitalised. */
  lemma {:induction false} OwnNameFindsContact(c: Contact)
    ensures FullNameStartsWith(c, TransformForSearch(c.surname))
    ensures FullNameStartsWith(c, TransformForSearch(c.surname + c.name))
  {
    var full := c.surname + c.name + c.patronymic;
    TransformAppend(c.surname + c.name, c.patronymic);
    TransformAppend(c.surname, c.name);
    var t := TransformForSearch(full);
    assert t[..|TransformForSearch(c.surname)|] == TransformForSearch(c.surname);
    assert t[..|TransformForSearch(c.surname + c.name)|] == TransformForSearch(c.surname + c.name);
  }

  /** Search by name ignores case on both sides: upper-casing the query,
      or the stored surname, name and patronymic, changes no answer. */
  lemma NameSearchIgnoresCase(c: Contact, query: string)
    ensures FullNameStartsWith(c, TransformForSearch(ToUpperCase(query)))
            == FullNameStartsWith(c, TransformForSearch(query))
    ensures FullNameStartsWith(
              c.(surname := ToUpperCase(c.surname), name := ToUpperCase(c.name),
                 patronymic := ToUpperCase(c.patronymic)),
              TransformForSearch(query))
            == FullNameStartsWith(c, TransformForSearch(query))
  {
    TransformIgnoresCase(query);
    TransformIgnoresCase(c.surname);
    TransformIgnoresCase(c.name);
    TransformIgnoresCase(c.patronymic);
    TransformAppend(c.surname + c.name, c.patronymic);
    TransformAppend(c.surname, c.name);
    TransformAppend(ToUpperCase(c.surname) + ToUpperCase(c.name), ToUpperCase(c.patronymic));
    TransformAppend(ToUpperCase(c.surname), ToUpperCase(c.name));
  }

  /** The loop of findByPhoneNumber's test: scan the phone numbers in order
      and stop at the first one whose normalised form starts with `startWithIt`. */
  method PhoneNumberTest(contact: Contact, startWithIt: string) returns (found: bool)
    ensures found <==> PhoneNumberStartsWith(contact, startWithIt)
    ensures contact.phoneNumbers == [] ==> !found
  {
    for k := 0 to |contact.phoneNumbers|
      invariant forall i | 0 <= i < k ::
                  !StartsWith(TransformForSearch(contact.phoneNumbers[i]), startWithIt)
    {
      if StartsWith(TransformForSearch(contact.phoneNumbers[k]), startWithIt) {
        return true;
      }
    }
    return false;
  }

  /** A leading digit survives normalisation unchanged. */
  lemma TransformKeepsLeadingDigit(s: string)
    requires s != [] && IsDigit(s[0])
    ensures TransformForSearch(s) == [s[0]] + TransformForSearch(s[1..])
  {
    assert s == [s[0]] + s[1..];
    TransformAppend([s[0]], s[1..]);
    TransformChar(s[0]);
  }

  /** A leading dash is dropped by normalisation. */
  lemma TransformDropsLeadingDash(s: string)
    requires s != [] && s[0] == '-'
    ensures TransformForSearch(s) == TransformForSearch(s[1..])
  {
    assert s == [s[0]] + s[1..];
    TransformAppend([s[0]], s[1..]);
    TransformChar(s[0]);
  }

  /** "d-ddd" normalises to its four digits: the dash is dropped. */
  lemma DashAfterTrunkDropped(h: string)
    requires |h| == 5 && h[1] == '-'
    requires IsDigit(h[0]) && IsDigit(h[2]) && IsDigit(h[3]) && IsDigit(h[4])
    ensures TransformForSearch(h) == [h[0], h[2], h[3], h[4]]
  {
    assert TransformForSearch(h[4..]) == [h[4]] by {
      TransformKeepsLeadingDigit(h[4..]);
      assert TransformForSearch(h[4..][1..]) == [];
    }
    assert TransformForSearch(h[3..]) == [h[3], h[4]] by {
      TransformKeepsLeadingDigit(h[3..]);
      assert h[3..][1..] == h[4..];
    }
    assert TransformForSearch(h[2..]) == [h[2], h[3], h[4]] by {
      TransformKeepsLeadingDigit(h[2..]);
      assert h[2..][1..] == h[3..];
    }
    assert TransformForSearch(h[1..]) == [h[2], h[3], h[4]] by {
      TransformDropsLeadingDash(h[1..]);
      assert h[1..][1..] == h[2..];
    }
    TransformKeepsLeadingDigit(h);
  }

  /** The dashed mobile number is found by its first four digits. */
  lemma DashedNumberMatchesPrefix(c: Contact)
    requires "8-900-123-45-67" in c.phoneNumbers
    ensures PhoneNumberStartsWith(c, TransformForSearch("8900"))
  {
    var i :| 0 <= i < |c.phoneNumbers| && c.phoneNumbers[i] == "8-900-123-45-67";
    var n := c.phoneNumbers[i];
    var t := TransformForSearch(n[5..]);
    assert TransformForSearch(n) == "8900" + t by {
      assert n == n[..5] + n[5..];
      TransformAppend(n[..5], n[5..]);
      DashAfterTrunkDropped(n[..5]);
    }
    assert StartsWith(TransformForSearch(n), "8900") by {
      assert ("8900" + t)[..4] == "8900";
    }
    TransformFixesSearchStrings("8900");
  }

  // ---------------------------------------------------------------------
  // Identity checks of addContact
  // ---------------------------------------------------------------------

  /** The identity triple of a stored contact. */
  function Identity(c: Contact): (string, string, string) {
    (c.name, c.surname, c.patronymic)
  }

  /** No two stored contacts share an identity triple. */
  predicate UniqueIdentities(cs: seq<Contact>) {
    forall i, j | 0 <= i < j < |cs| :: Identity(cs[i]) != Identity(cs[j])
  }

  /** addContact's first rejection: name, surname and patronymic all null or blank. */
  predicate IdentityBlank(name: Option<string>, surname: Option<string>, patronymic: Option<string>) {
    IsNullOrBlank(name) && IsNullOrBlank(surname) && IsNullOrBlank(patronymic)
  }

  /** `stored.equals(raw)` for a stored field and a raw, possibly null, argument. */
  predicate EqualsRaw(stored: string, raw: Option<string>) {
    raw == Some(stored)
  }

  /** addContact's second rejection, as written: some stored contact's
      fields equal the RAW arguments. */
  predicate IdentityTaken(cs: seq<Contact>, name: Option<string>, surname: Option<string>, patronymic: Option<string>)
    ensures IdentityTaken(cs, name, surname, patronymic) ==> name.Some? && surname.Some? && patronymic.Some?
    ensures (forall i | 0 <= i < |cs| :: WellFormed(cs[i])) && IdentityTaken(cs, name, surname, patronymic) ==>
              IsStoredText(name.value) && IsStoredText(surname.value) && IsStoredText(patronymic.value)
  {
    exists i | 0 <= i < |cs| ::
      EqualsRaw(cs[i].name, name) && EqualsRaw(cs[i].surname, surname) && EqualsRaw(cs[i].patronymic, patronymic)
  }

  /** The duplicate check as evidently intended: compare with the triple the
      constructor would store. */
  predicate IdentityTakenStored(cs: seq<Contact>, name: Option<string>, surname: Option<string>, patronymic: Option<string>) {
    exists i | 0 <= i < |cs| ::
      Identity(cs[i]) == (StoredText(name), StoredText(surname), StoredText(patronymic))
  }

  /** The check as written is weaker than the intended one: whatever it
      rejects, the intended check rejects too. */
  lemma RawCheckImpliesStoredCheck(cs: seq<Contact>, name: Option<string>, surname: Option<string>, patronymic: Option<string>)
    requires forall i | 0 <= i < |cs| :: WellFormed(cs[i])
    requires IdentityTaken(cs, name, surname, patronymic)
    ensures IdentityTakenStored(cs, name, surname, patronymic)
  {
    var i :| 0 <= i < |cs| && EqualsRaw(cs[i].name, name) && EqualsRaw(cs[i].surname, surname)
             && EqualsRaw(cs[i].patronymic, patronymic);
    assert WellFormed(cs[i]);
  }

  /** With all three parts present and non-blank, the check as written
      rejects a repeat of the same arguments. */
  lemma RepeatRejectedWhenAllPartsPresent(
    cs: seq<Contact>, name: Option<string>, surname: Option<string>, patronymic: Option<string>,
    address: Option<string>, phoneNumbers: Option<seq<string>>, birthday: Option<Date>, email: Option<string>)
    requires !IsNullOrBlank(name) && !IsNullOrBlank(surname) && !IsNullOrBlank(patronymic)
    ensures IdentityTaken(cs + [NewContact(name, surname, patronymic, address, phoneNumbers, birthday, email)],
                          name, surname, patronymic)
  {
    var cs' := cs + [NewContact(name, surname, patronymic, address, phoneNumbers, birthday, email)];
    assert EqualsRaw(cs'[|cs|].name, name);
  }

  /** The check as written misses a repeat as soon as one part is null:
      adding (null, "Ivanov", null) to a book that already holds the contact
      it produces is accepted again, and the list then holds two contacts
      with the same identity. */
  lemma RepeatWithNullPartAccepted()
    ensures var c := NewContact(None, Some("Ivanov"), None, None, None, None, None);
            && !IdentityBlank(None, Some("Ivanov"), None)
            && !IdentityTaken([c], None, Some("Ivanov"), None)
            && !UniqueIdentities([c] + [c])
  {
    var c := NewContact(None, Some("Ivanov"), None, None, None, None, None);
    assert !IsBlank("Ivanov") by { assert !IsSpace("Ivanov"[0]); }
    assert ([c] + [c])[0] == c && ([c] + [c])[1] == c;
  }

  /** The same miss with the input the console sends for a field left as
      spaces: ("  ", "Ivanov", "  ") is stored as ("", "Ivanov", ""), which
      the raw arguments never equal, so the repeat is accepted again. */
  lemma RepeatWithBlankPartsAccepted()
    ensures var c := NewContact(Some("  "), Some("Ivanov"), Some("  "), None, None, None, None);
            && !IdentityBlank(Some("  "), Some("Ivanov"), Some("  "))
            && !IdentityTaken([c], Some("  "), Some("Ivanov"), Some("  "))
            && !UniqueIdentities([c] + [c])
  {
    var c := NewContact(Some("  "), Some("Ivanov"), Some("  "), None, None, None, None);
    assert !IsBlank("Ivanov") by { assert !IsSpace("Ivanov"[0]); }
    assert IsBlank("  ");
    assert c.name == "" != "  ";
    assert ([c] + [c])[0] == c && ([c] + [c])[1] == c;
  }

  /** The intended check always rejects a repeat of the same arguments. */
  lemma RepeatRejectedByStoredCheck(
    cs: seq<Contact>, name: Option<string>, surname: Option<string>, patronymic: Option<string>,
    address: Option<string>, phoneNumbers: Option<seq<string>>, birthday: Option<Date>, email: Option<string>)
    ensures IdentityTakenStored(cs + [NewContact(name, surname, patronymic, address, phoneNumbers, birthday, email)],
                                name, surname, patronymic)
  {
    var cs' := cs + [NewContact(name, surname, patronymic, address, phoneNumbers, birthday, email)];
    assert Identity(cs'[|cs|]) == (StoredText(name), StoredText(surname), StoredText(patronymic));
  }

  /** Appending a contact whose identity the intended check finds free keeps
      identities unique. */
  lemma AppendKeepsIdentitiesUnique(
    cs: seq<Contact>, name: Option<string>, surname: Option<string>, patronymic: Option<string>,
    address: Option<string>, phoneNumbers: Option<seq<string>>, birthday: Option<Date>, email: Option<string>)
    requires UniqueIdentities(cs)
    requires !IdentityTakenStored(cs, name, surname, patronymic)
    ensures UniqueIdentities(cs + [NewContact(name, surname, patronymic, address, phoneNumbers, birthday, email)])
  {
    var c := NewContact(name, surname, patronymic, address, phoneNumbers, birthday, email);
    var cs' := cs + [c];
    forall i, j | 0 <= i < j < |cs'| ensures Identity(cs'[i]) != Identity(cs'[j]) {
      if j == |cs| {
        assert cs'[i] == cs[i];
        assert Identity(c) == (StoredText(name), StoredText(surname), StoredText(patronymic));
      } else {
        assert cs'[i] == cs[i] && cs'[j] == cs[j];
      }
    }
  }

  /** Position `i` of the list with index `k` cut out. */
  lemma RemovedAt(cs: seq<Contact>, k: int, i: int)
    requires 0 <= k < |cs| && 0 <= i < |cs| - 1
    ensures (cs[..k] + cs[k + 1..])[i] == cs[if i < k then i else i + 1]
  {
  }

  /** Removing an element keeps identities unique. */
  lemma RemoveKeepsIdentitiesUnique(cs: seq<Contact>, x: Contact)
    requires UniqueIdentities(cs)
    ensures UniqueIdentities(RemoveFirst(cs, x))
  {
    var r := RemoveFirst(cs, x);
    if x in cs {
      var k := IndexOf(cs, x);
      assert r == cs[..k] + cs[k + 1..];
      forall i, j | 0 <= i < j < |r| ensures Identity(r[i]) != Identity(r[j]) {
        RemovedAt(cs, k, i);
        RemovedAt(cs, k, j);
      }
    }
  }

  // ---------------------------------------------------------------------
  // The phone book
  // ---------------------------------------------------------------------

  class PhoneBook {
    /** The contacts, in insertion order. */
    var contacts: seq<Contact>
    /** What the data file holds: the list written by the last serialize
        call, or None while nothing has been written since opening. */
    ghost var snapshot: Option<seq<Contact>>
    /** The trimmed path of the data file. */
    const file: string

    ghost predicate Valid()
      reads this
    {
      && file != ""
      && forall i | 0 <= i < |contacts| :: WellFormed(contacts[i])
    }

    constructor (file: string)
      requires file != ""
      ensures Valid()
      ensures this.file == file && contacts == [] && snapshot == None
    {
      this.file := file;
      contacts := [];
      snapshot := None;
    }

    /** The constructor PhoneBook(path): a null or blank path is refused
        (null result); otherwise the book is bound to the trimmed path and
        starts empty. */
    static method Open(path: Option<string>) returns (book: PhoneBook?)
      ensures book == null <==> IsNullOrBlank(path)
      ensures book != null ==>
                && fresh(book) && book.Valid()
                && book.file == MakeNotBlank(path)
                && book.contacts == [] && book.snapshot == None
    {
      var file := MakeNotBlank(path);
      if file == "" {
        return null;
      }
      book := new PhoneBook(file);
    }

    /** serialize: the file is overwritten with the whole current list. */
    ghost method Serialize()
      modifies this`snapshot
      ensures snapshot == Some(contacts)
    {
      snapshot := Some(contacts);
    }

    /** addContact: refuse an all-blank identity and a raw duplicate;
        otherwise append the new contact and write the list. */
    method AddContact(
      name: Option<string>, surname: Option<string>, patronymic: Option<string>,
      address: Option<string>, phoneNumbers: Option<seq<string>>,
      birthday: Option<Date>, email: Option<string>) returns (added: bool)
      requires Valid()
      modifies this
      ensures Valid()
      ensures added <==> !IdentityBlank(name, surname, patronymic)
                         && !IdentityTaken(old(contacts), name, surname, patronymic)
      ensures added ==>
                && contacts == old(contacts) + [NewContact(name, surname, patronymic, address, phoneNumbers, birthday, email)]
                && snapshot == Some(contacts)
      ensures !added ==> contacts == old(contacts) && snapshot == old(snapshot)
    {
      if IsNullOrBlank(name) && IsNullOrBlank(surname) && IsNullOrBlank(patronymic) {
        return false;
      }
      if IdentityTaken(contacts, name, surname, patronymic) {
        return false;
      }
      contacts := contacts + [NewContact(name, surname, patronymic, address, phoneNumbers, birthday, email)];
      Serialize();
      return true;
    }

    /** addContact with the duplicate check comparing the triple the
        constructor would store; it keeps identities unique. */
    method AddContactDistinct(
      name: Option<string>, surname: Option<string>, patronymic: Option<string>,
      address: Option<string>, phoneNumbers: Option<seq<string>>,
      birthday: Option<Date>, email: Option<string>) returns (added: bool)
      requires Valid() && UniqueIdentities(contacts)
      modifies this
      ensures Valid() && UniqueIdentities(contacts)
      ensures added <==> !IdentityBlank(name, surname, patronymic)
                         && !IdentityTakenStored(old(contacts), name, surname, patronymic)
      ensures added ==>
                && contacts == old(contacts) + [NewContact(name, surname, patronymic, address, phoneNumbers, birthday, email)]
                && snapshot == Some(contacts)
      ensures !added ==> contacts == old(contacts) && snapshot == old(snapshot)
    {
      if IsNullOrBlank(name) && IsNullOrBlank(surname) && IsNullOrBlank(patronymic) {
        return false;
      }
      if IdentityTakenStored(contacts, name, surname, patronymic) {
        return false;
      }
      AppendKeepsIdentitiesUnique(contacts, name, surname, patronymic, address, phoneNumbers, birthday, email);
      contacts := contacts + [NewContact(name, surname, patronymic, address, phoneNumbers, birthday, email)];
      Serialize();
      return true;
    }

    /** deleteContact: remove the first equal contact, if any, and write the list. */
    method DeleteContact(hater: Contact)
      requires Valid()
      modifies this
      ensures Valid()
      ensures contacts == RemoveFirst(old(contacts), hater)
      ensures snapshot == Some(contacts)
      ensures UniqueIdentities(old(contacts)) ==> UniqueIdentities(contacts)
    {
      var r := RemoveFirst(contacts, hater);
      if UniqueIdentities(contacts) {
        RemoveKeepsIdentitiesUnique(contacts, hater);
      }
      forall i | 0 <= i < |r| ensures WellFormed(r[i]) {
        assert r[i] in multiset(contacts);
      }
      contacts := r;
      Serialize();
    }

    /** findByFullName: the contacts whose joined, normalised full name
        starts with the normalised query, in list order. */
    function FindByFullName(startOfName: string): (r: seq<Contact>)
      reads this
      ensures IsSubsequence(r, contacts)
      ensures forall c :: multiset(r)[c] ==
                if FullNameStartsWith(c, TransformForSearch(startOfName)) then multiset(contacts)[c] else 0
      ensures TransformForSearch(startOfName) == "" ==> r == contacts
    {
      var startWithIt := TransformForSearch(startOfName);
      Find(contacts, c => FullNameStartsWith(c, startWithIt))
    }

    /** The console's promise that search does not care about capitals:
        an upper-cased query finds the same contacts. */
    lemma FindByFullNameIgnoresCase(query: string)
      ensures FindByFullName(ToUpperCase(query)) == FindByFullName(query)
    {
      TransformIgnoresCase(query);
    }

    /** findByPhoneNumber: the contacts with a phone number whose normalised
        form starts with the normalised query, in list order. */
    function FindByPhoneNumber(startOfNumber: string): (r: seq<Contact>)
      reads this
      ensures IsSubsequence(r, contacts)
      ensures forall c :: multiset(r)[c] ==
                if PhoneNumberStartsWith(c, TransformForSearch(startOfNumber)) then multiset(contacts)[c] else 0
      ensures forall i | 0 <= i < |r| :: r[i].phoneNumbers != []
    {
      var startWithIt := TransformForSearch(startOfNumber);
      var r := Find(contacts, c => PhoneNumberStartsWith(c, startWithIt));
      assert forall i | 0 <= i < |r| :: multiset(r)[r[i]] > 0;
      r
    }

    /** findByBirthday: the contacts born on `date`, in list order; a contact
        without a birthday is never returned. */
    function FindByBirthday(date: Option<Date>): (r: seq<Contact>)
      reads this
      ensures IsSubsequence(r, contacts)
      ensures forall c :: multiset(r)[c] == if BornOn(c, date) then multiset(contacts)[c] else 0
      ensures forall i | 0 <= i < |r| :: r[i].birthday.Some? && date == r[i].birthday
    {
      var r := Find(contacts, c => BornOn(c, date));
      assert forall i | 0 <= i < |r| :: multiset(r)[r[i]] > 0;
      r
    }

    /** getAllContacts: a copy of the whole list. */
    function GetAllContacts(): (r: seq<Contact>)
      reads this
      ensures r == contacts
    {
      contacts
    }
  }
}
