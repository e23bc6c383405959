/**
 * The program's entry point: it builds four addresses, tries to build five people
 * whose managers are the previously built ones, and then writes the details of
 * p4 and of everyone above p4 in the chain of command. Standard output is the
 * sequence of lines written; the stack traces written for failed constructions
 * go to standard error and are not part of it.
 */
module Program {
  import opened Nullable
  import opened Validator
  import opened People

  /**
   * What is written for one person: `displayPerson`, "Address", then `displayAddress`.
   * The entry splits back into those three parts at the "Address" line, which
   * follows the manager line when there is a manager and the phone line otherwise.
   */
  function Entry(p: Person): (e: seq<string>)
    ensures var k := if p.manager == null then 3 else 4;
      && |e| == k + 5
      && e[..k] == p.DisplayLines()
      && e[k] == "Address"
      && e[k + 1..] == p.address.DisplayLines()
  {
    p.DisplayLines() + ["Address"] + p.address.DisplayLines()
  }

  /** What the loop writes for the people it visits: each one's entry and an empty line. */
  function ChainEntries(ps: seq<Person>): seq<string>
    decreases |ps|
  {
    if ps == [] then []
    else ChainEntries(ps[..|ps| - 1]) + Entry(ps[|ps| - 1]) + [""]
  }

  /** Writing one more person appends that person's entry and an empty line. */
  lemma ChainEntriesSnoc(ps: seq<Person>, p: Person)
    ensures ChainEntries(ps + [p]) == ChainEntries(ps) + (Entry(p) + [""])
  {
  }

  lemma AppendNil<T>(a: seq<T>, b: seq<T>)
    requires a == [] || b == []
    ensures a + b == if a == [] then b else a
  {
  }

  lemma AppendAssoc<T>(a: seq<T>, b: seq<T>, c: seq<T>)
    ensures a + b + c == a + (b + c)
  {
  }

  /**
   * The last part of `main`: write the details of `top`, then walk the manager
   * links upward until null, writing each manager's details. The walk visits
   * exactly `top.managers`, in order, and ends because that chain is finite.
   */
  method ReportChain(top: Person) returns (out: seq<string>)
    requires top.Valid()
    ensures out == Entry(top) + [""] + ChainEntries(top.managers)
  {
    out := Entry(top);
    var p := top.manager;
    out := out + [""];
    ghost var head := out;
    ghost var visited: seq<Person> := [];
    AppendNil([], top.managers);
    while p != null
      invariant p != null ==> p.Valid()
      invariant top.managers == visited + (if p == null then [] else [p] + p.managers)
      invariant out == head + ChainEntries(visited)
      decreases if p == null then 0 else |p.managers| + 1
    {
      var current: Person := p;
      ChainEntriesSnoc(visited, current);
      AppendAssoc(head, ChainEntries(visited), Entry(current) + [""]);
      AppendAssoc(visited, [current], current.managers);
      out := out + (Entry(current) + [""]);
      visited := visited + [current];
      p := current.manager;
    }
    AppendNil(visited, []);
  }

  /**
   * `main` with its fixed inputs: p1 is built; p2 and p3 fail on their phone
   * numbers (twelve and nine subscriber digits), so their references stay null;
   * p4 is built with the null p3 as manager; p5 fails on its email, whose local
   * part is empty. The report on p4 therefore visits nobody above p4.
   */
  method Run() returns (r1: Construction, r2: Construction, r3: Construction, r4: Construction, r5: Construction,
                        out: seq<string>)
    ensures r1.Built? && r1.person.name == Some("p1") && r1.person.manager == null
    ensures r2 == Failed(PhoneNumberNotValid)
    ensures r3 == Failed(PhoneNumberNotValid)
    ensures r4.Built? && r4.person.name == Some("p4") && r4.person.manager == null && r4.person.managers == []
    ensures r5 == Failed(EmailNotValid)
    ensures out == Entry(r4.person) + [""]
  {
    var p1ad := Address(Some("s1"), Some("s223"), Some("city1"), Some("500084"));
    var p2ad := Address(Some("s2"), Some("s2312"), Some("city2"), Some("500044"));
    var p3ad := Address(Some("s3"), Some("s23154"), Some("city3"), Some("500084"));
    var p4ad := Address(Some("s4"), Some("s2222"), Some("city4"), Some("500074"));

    var p1: Person? := null;
    var p2: Person? := null;
    var p3: Person? := null;
    var p4: Person? := null;
    var p5: Person? := null;

    P1Checks();
    r1 := NewPerson(Some("p1"), Some("p1@email.com"), Some("+91-4156232215"), p1ad, p1);
    p1 := match r1 case Built(p) => p case Failed(_) => null;

    P2Checks();
    r2 := NewPerson(Some("p2"), Some("p2@email.com"), Some("+91-651511516516"), p2ad, p1);
    p2 := match r2 case Built(p) => p case Failed(_) => null;

    P3Checks();
    r3 := NewPerson(Some("p3"), Some("p3@email.com"), Some("+91-165165151"), p3ad, p2);
    p3 := match r3 case Built(p) => p case Failed(_) => null;

    P4Checks();
    r4 := NewPerson(Some("p4"), Some("p4@email.com"), Some("+91-9354999989"), p4ad, p3);
    p4 := match r4 case Built(p) => p case Failed(_) => null;

    P5Checks();
    r5 := NewPerson(Some("p5"), Some("@email.com"), Some("+91-8799699989"), p3ad, p4);
    p5 := match r5 case Built(p) => p case Failed(_) => null;

    out := ReportChain(p4);
  }
}
