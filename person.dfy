/**
 * Addresses and people. A person is built only through `NewPerson`, which checks
 * the email before the phone number and either yields a fully built person or one
 * of the two errors, never a partly built object.
 */
module People {
  import opened Nullable
  import opened Validator

  /** The labels `displayAddress` puts in front of the four fields. */
  const AddressLabels: seq<string> := ["Street Line 1: ", "Street Line 2: ", "City: ", "Postal Code: "]

  /** A postal address. The source declares a fifth field, `state`, that nothing reads or writes. */
  datatype Address = Address(streetLine1: JString, streetLine2: JString, city: JString, postalCode: JString)
  {
    /** The fields `displayAddress` writes, in the order it writes them. */
    function Fields(): seq<JString>
    {
      [streetLine1, streetLine2, city, postalCode]
    }

    /**
     * The four lines `displayAddress` writes, in order: line `i` is the label
     * `AddressLabels[i]`, and dropping that label gives back the text of field `i`.
     */
    function DisplayLines(): (lines: seq<string>)
      ensures |lines| == |AddressLabels| == |Fields()|
      ensures forall i | 0 <= i < |lines| ::
        |AddressLabels[i]| <= |lines[i]| && lines[i][..|AddressLabels[i]|] == AddressLabels[i]
        && lines[i][|AddressLabels[i]|..] == Show(Fields()[i])
    {
      [ "Street Line 1: " + Show(streetLine1),
        "Street Line 2: " + Show(streetLine2),
        "City: " + Show(city),
        "Postal Code: " + Show(postalCode) ]
    }
  }

  /** The two exceptions the constructor can throw. */
  datatype ConstructionError = EmailNotValid | PhoneNumberNotValid

  /** The outcome of `new Person(...)`: the new object, or the exception thrown instead. */
  datatype Construction = Built(person: Person) | Failed(error: ConstructionError)

  class Person {
    // The source assigns these fields in the constructor only, so they are constants here.
    const name: JString
    const email: JString
    const phone: JString
    const address: Address
    const manager: Person?

    /** The chain of command above this person, nearest manager first. */
    ghost const managers: seq<Person>

    /**
     * Both checks hold, and `managers` lists exactly the people reached by
     * following `manager` links up to the first null.
     */
    ghost predicate Valid()
      decreases |managers|
    {
      && ValidateEmail(email)
      && ValidatePhoneNo(phone)
      && (manager == null ==> managers == [])
      && (manager != null ==> managers == [manager] + manager.managers && manager.Valid())
    }

    /**
     * The field assignments of the source's constructor, reached only once both
     * checks have passed (see `NewPerson`).
     */
    constructor (name: JString, email: JString, phone: JString, address: Address, manager: Person?)
      requires ValidateEmail(email) && ValidatePhoneNo(phone)
      requires manager != null ==> manager.Valid()
      ensures Valid()
      ensures this.name == name && this.email == email && this.phone == phone
      ensures this.address == address && this.manager == manager
    {
      this.name := name;
      this.email := email;
      this.phone := phone;
      this.address := address;
      this.manager := manager;
      if manager == null {
        this.managers := [];
      } else {
        var boss: Person := manager;
        this.managers := [boss] + boss.managers;
      }
    }

    /** The lines `displayPerson` writes: the manager's name only when there is a manager. */
    function DisplayLines(): (lines: seq<string>)
      ensures |lines| == if manager == null then 3 else 4
    {
      [ "name =  " + Show(name),
        "email = " + Show(email),
        "phone = " + Show(phone) ]
      + (if manager != null then ["manager = " + Show(manager.name)] else [])
    }
  }

  /**
   * `new Person(name, email, phone, address, manager)`: an invalid email raises
   * the email error whatever the phone number is; the phone number is checked
   * only after the email passed; only when both pass are the fields assigned.
   */
  method NewPerson(name: JString, email: JString, phone: JString, address: Address, manager: Person?)
    returns (r: Construction)
    requires manager != null ==> manager.Valid()
    ensures !ValidateEmail(email) ==> r == Failed(EmailNotValid)
    ensures ValidateEmail(email) && !ValidatePhoneNo(phone) ==> r == Failed(PhoneNumberNotValid)
    ensures r.Built? <==> ValidateEmail(email) && ValidatePhoneNo(phone)
    ensures r.Built? ==> fresh(r.person) && r.person.Valid()
    ensures r.Built? ==> r.person.name == name && r.person.email == email && r.person.phone == phone
                         && r.person.address == address && r.person.manager == manager
  {
    if !ValidateEmail(email) {
      return Failed(EmailNotValid);
    }
    if !ValidatePhoneNo(phone) {
      return Failed(PhoneNumberNotValid);
    }
    var p := new Person(name, email, phone, address, manager);
    return Built(p);
  }

  // ---------------------------------------------------------------------------
  // Display

  /** A line `displayPerson` writes for the manager. */
  predicate IsManagerLine(line: string)
  {
    |line| >= |"manager = "| && line[..|"manager = "|] == "manager = "
  }

  /**
   * The manager line is written exactly when a manager is present, and then it
   * names that manager; an absent manager leaves no line at all.
   */
  lemma ManagerLineIffManager(p: Person)
    ensures (exists i :: 0 <= i < |p.DisplayLines()| && IsManagerLine(p.DisplayLines()[i])) <==> p.manager != null
    ensures p.manager != null ==> p.DisplayLines()[3] == "manager = " + Show(p.manager.name)
  {
    var lines := p.DisplayLines();
    assert !IsManagerLine(lines[0]) by { assert lines[0][0] == 'n'; }
    assert !IsManagerLine(lines[1]) by { assert lines[1][0] == 'e'; }
    assert !IsManagerLine(lines[2]) by { assert lines[2][0] == 'p'; }
    if p.manager != null {
      assert lines[3][..|"manager = "|] == "manager = ";
      assert IsManagerLine(lines[3]);
    }
  }

  // ---------------------------------------------------------------------------
  // The chain of command

  /** Every entry of a valid person's chain is valid, and its own chain is the rest of the list. */
  lemma {:induction false} ChainSuffixes(p: Person)
    requires p.Valid()
    ensures forall i | 0 <= i < |p.managers| :: p.managers[i].Valid() && p.managers[i].managers == p.managers[i + 1..]
    decreases |p.managers|
  {
    if p.manager != null {
      var m := p.manager;
      ChainSuffixes(m);
      assert p.managers[0] == m && p.managers[1..] == m.managers;
      forall i | 0 < i < |p.managers|
        ensures p.managers[i].Valid() && p.managers[i].managers == p.managers[i + 1..]
      {
        assert p.managers[i] == m.managers[i - 1];
        assert m.managers[i..] == p.managers[i + 1..];
      }
    }
  }

  /**
   * The ghost list `managers` is the list of successive `manager` links: it starts
   * at the direct manager, each entry is the manager of the one before, and the
   * last one has no manager.
   */
  lemma ManagersFollowLinks(p: Person)
    requires p.Valid()
    ensures p.managers == [] <==> p.manager == null
    ensures p.managers != [] ==> p.managers[0] == p.manager
    ensures forall i | 0 < i < |p.managers| :: p.managers[i] == p.managers[i - 1].manager
    ensures p.managers != [] ==> p.managers[|p.managers| - 1].manager == null
  {
    ChainSuffixes(p);
    forall i | 0 < i < |p.managers| ensures p.managers[i] == p.managers[i - 1].manager {
      var q := p.managers[i - 1];
      assert q.Valid() && q.managers == p.managers[i..];
    }
    if p.managers != [] {
      var last := p.managers[|p.managers| - 1];
      assert last.Valid() && last.managers == [];
    }
  }

  /**
   * Following the manager links from a valid person never comes back: the person
   * is not their own (indirect) manager and nobody appears twice in the chain.
   * Construction order guarantees this, since a manager must exist before the
   * people who report to them.
   */
  lemma ChainIsAcyclic(p: Person)
    requires p.Valid()
    ensures p !in p.managers
    ensures forall i, j | 0 <= i < j < |p.managers| :: p.managers[i] != p.managers[j]
  {
    ChainSuffixes(p);
    forall i, j | 0 <= i < j < |p.managers| ensures p.managers[i] != p.managers[j] {
      assert |p.managers[i + 1..]| != |p.managers[j + 1..]|;
    }
  }
}
