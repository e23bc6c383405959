# ValidateAddress in Dafny

A model of `validation.java`, a small Java program that records people with an
email address, an Indian phone number, a postal address and an optional manager.

- `Validator.validateEmail` and `Validator.validatePhoneNo` match the whole string
  against an anchored regular expression and reject null. Each pattern is modelled
  twice: as a declarative shape (`EmailShape`, `PhoneShape`) and as a left-to-right
  matcher (`MatchEmailFrom`, `MatchPhone`). Lemmas prove that the two agree on every
  string. Further lemmas derive what an accepted string looks like.
- The `Person` constructor checks the email first and the phone number second. It
  assigns the fields only when both checks pass. `NewPerson` models a call to
  `new Person(...)` as a `Construction` result: either the new object or the
  exception that was thrown.
- `Person` is a class whose fields are constants. A ghost field `managers` lists
  the chain of command. `Valid()` ties that list to the `manager` links, and lemmas
  prove that the chain is finite, follows the links and never repeats a person.
- `displayPerson` and `displayAddress` are modelled as the lists of lines they write.
- `main` becomes `Program.Run`, with its fixed inputs. The final walk up the chain of
  command becomes `Program.ReportChain`: a loop proved against `ChainEntries`.

Java `null` strings are `None` of `Nullable.Option`. A missing value
prints as `"null"` (`Nullable.Show`).

## Model

| member | source | states |
|---|---|---|
| Validator.ValidateEmail | validation.java:61-71 | false for null; otherwise true exactly when the whole string is one or more local-part characters, one '@', and one or more domain characters |
| Validator.MatchEmailFromCorrect | validation.java:62 | the left-to-right reading of the email pattern accepts exactly the strings that split at an '@' into a local run (non-empty unless one was already read) and a non-empty domain run |
| Validator.EmailFromParts | validation.java:62 | `local + "@" + domain` is accepted if and only if both parts are non-empty and drawn from their character classes |
| Validator.EmailStructure | validation.java:62 | an accepted email has at least three characters, exactly one '@', and neither starts nor ends with '@'; it starts with a local character and ends with a domain character |
| Validator.EmailAnchored | validation.java:69-70 | the match covers the whole string: a leading character outside the local class, or a trailing one outside the domain class, makes any string fail |
| Validator.ValidatePhoneNo | validation.java:78-89 | false for null; otherwise true exactly when the string is one of the prefixes "91", "+91", "91-", "+91-" followed by a non-zero digit and nine digits |
| Validator.MatchDigitsCorrect | validation.java:80 | the `[0-9]{n}` reader accepts exactly the strings of n digits |
| Validator.MatchPhoneCorrect | validation.java:80 | the left-to-right reading of the phone pattern (optional '+', "91", optional '-', ten-digit subscriber number) accepts exactly the strings of the phone shape |
| Validator.PhoneStructure | validation.java:80 | an accepted number has 12 to 14 characters and ends in a ten-digit subscriber number that does not start with 0 |
| Validator.NoCountryCodeRejected | validation.java:80 | a number without the "91" country code ("123456") is rejected |
| Validator.P1Checks | validation.java:155 | p1's email and phone number both pass |
| Validator.P2Checks | validation.java:163 | p2's email passes; its phone number, with twelve subscriber digits, fails |
| Validator.P3Checks | validation.java:171 | p3's email passes; its phone number, with nine subscriber digits, fails |
| Validator.P4Checks | validation.java:179 | p4's email and phone number both pass |
| Validator.P5Checks | validation.java:187 | p5's email, with an empty local part, fails; its phone number would pass |
| People.Person.constructor | validation.java:124-128 | the five fields hold the arguments, and the new person is valid: both checks hold and the chain of command is the manager followed by the manager's own chain |
| People.NewPerson | validation.java:113-129 | an invalid email yields the email error whatever the phone; a valid email with an invalid phone yields the phone error; a person is built exactly when both pass, and then it is fresh, valid and holds the arguments |
| People.Person.DisplayLines | validation.java:132-139 | `displayPerson` writes four lines when there is a manager and three otherwise |
| People.Address.DisplayLines | validation.java:26-31 | `displayAddress` writes four lines, in order: street line 1, street line 2, city and postal code, each its label followed by the field's text, with null written as "null" |
| People.ManagerLineIffManager | validation.java:137-138 | a "manager = " line is written if and only if a manager is present, and it names that manager |
| People.ChainSuffixes | validation.java:110 | every person in a valid chain of command is valid, and that person's own chain is the rest of the list |
| People.ManagersFollowLinks | validation.java:204-213 | the chain of command is the sequence of successive `manager` links: it starts at the direct manager, each entry is the manager of the one before, and the last has no manager |
| People.ChainIsAcyclic | validation.java:204-213 | following the manager links never returns to the start and never visits anyone twice, so the walk in `main` ends |
| Program.Entry | validation.java:208-210 | the lines written for one person are `displayPerson`'s lines, then "Address", then `displayAddress`'s lines; the "Address" line is the fifth line when there is a manager and the fourth otherwise |
| Program.ReportChain | validation.java:200-213 | the lines written are p4's entry, an empty line, then one entry and an empty line per manager in the chain of command, in order from the direct manager upward |
| Program.Run | validation.java:145-213 | with the program's inputs, p1 is built without a manager; p2 and p3 fail on their phone numbers; p4 is built with a null manager; p5 fails on its email; the report lists p4 alone |

## Left out

- Console output is modelled as lists of lines. The stack traces printed for failed constructions go to standard error and are not modelled; neither are the exception messages.
- `java.util.regex.Pattern` and `Matcher` are not modelled as a library. Each of the two fixed patterns is written out as a matcher for that pattern alone.
- The `state` field of `Address` (validation.java:7) is never assigned or read, so the model has no such field.
- The constructor calls `Validate.validateEmail` and `Validate.validatePhoneNo` (validation.java:115, 119), but the class is named `Validator` (validation.java:55). As written the file does not compile. The model takes the calls to go to `Validator`.
- The `Person` fields are constants in the model. The source assigns them only in the constructor; a later reassignment could build a cycle of managers, which the model cannot express.
- An address is a value in the model, never null. Every address in `main` is non-null, so `displayAddress` is never called on a null reference.
- `main` calls `p4.displayPerson()` without checking p4 for null. `Program.ReportChain` requires a non-null person, and `Program.Run` proves that p4 is built with these inputs, so the crash does not happen here.
- The phone numbers of p2 (validation.java:163) and p3 (validation.java:171) fail the pattern, so both references stay null, p4 is built with a null manager, and the report lists p4 alone.
- Java strings are UTF-16 code units and Dafny strings are characters. All characters the patterns accept are ASCII, so the difference does not affect any result.
