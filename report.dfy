/**
 * The report builder of challenge.rb: for each company in id order, its
 * header, its active users in last-name order split into those emailed
 * and those not, and the total of the top-ups given.
 *
 * The output is the sequence of `file.puts` calls, one `Line` each; `Render`
 * gives the text each call writes. Reading the JSON inputs and opening the
 * output file are outside this module: it takes the decoded records and
 * returns the lines.
 */
module ReportBuilder {
  import opened Wrappers
  import opened Records
  import opened Sorting
  import opened Decimal

  /** One `file.puts` of the report. */
  datatype Line =
    | CompanyIdLine(id: int)
    | CompanyNameLine(name: string)
    | EmailedHeader
    | NotEmailedHeader
      /** The three-line block of one user, written by a single `puts`. */
    | UserEntry(lastName: string, firstName: string, email: string, previous: int, balance: int)
    | TotalLine(companyName: string, total: int)
    | Blank

  // ---------------------------------------------------------------------
  // Orderings

  /**
   * Compares the sort keys `safe_get(company, 'id', Float::INFINITY)`: a
   * missing id stands for infinity and so is greater than every id.
   */
  function CompanyLe(a: Company, b: Company): bool
  {
    match (a.id, b.id)
    case (_, None) => true
    case (None, Some(_)) => false
    case (Some(x), Some(y)) => x <= y
  }

  /** Compares the sort keys `safe_get(user, 'last_name', '')`. */
  function UserLe(a: User, b: User): bool
  {
    StringLe(LastNameKey(a), LastNameKey(b))
  }

  lemma CompanyLeTotalPreorder()
    ensures TotalPreorder(CompanyLe)
  {
  }

  lemma UserLeTotalPreorder()
    ensures TotalPreorder(UserLe)
  {
    StringLeTotalPreorder();
  }

  /** `companies.sort_by { ... }`: a permutation of the companies... */
  function SortCompanies(cs: seq<Company>): (r: seq<Company>)
    ensures multiset(r) == multiset(cs)
  {
    SortBy(cs, CompanyLe)
  }

  /** ...in id order, companies without id last. */
  lemma SortCompaniesOrdered(cs: seq<Company>)
    ensures SortedBy(SortCompanies(cs), CompanyLe)
  {
    CompanyLeTotalPreorder();
    SortBySorted(cs, CompanyLe);
  }

  // ---------------------------------------------------------------------
  // Selecting and grouping users

  /** The `select` condition: the user belongs to the company and is active. */
  predicate Matches(id: int, u: User)
  {
    u.companyId == Some(id) && IsActive(u)
  }

  /** `users.select { ... }`: the matching users, in input order. */
  function Select(id: int, users: seq<User>): (r: seq<User>)
    ensures forall u :: u in r <==> u in users && Matches(id, u)
    ensures forall u :: multiset(r)[u] == if Matches(id, u) then multiset(users)[u] else 0
    ensures |r| <= |users|
    decreases |users|
  {
    if users == [] then []
    else
      var last := users[|users| - 1];
      assert users == users[..|users| - 1] + [last];
      var init := Select(id, users[..|users| - 1]);
      if Matches(id, last) then init + [last] else init
  }

  /** `...select { ... }.sort_by { ... }`: the matching users in last-name order. */
  function Selected(id: int, users: seq<User>): (r: seq<User>)
    ensures multiset(r) == multiset(Select(id, users))
  {
    SortBy(Select(id, users), UserLe)
  }

  /** The selected users are in last-name order. */
  lemma SelectedOrdered(id: int, users: seq<User>)
    ensures SortedBy(Selected(id, users), UserLe)
  {
    UserLeTotalPreorder();
    SortBySorted(Select(id, users), UserLe);
  }

  /** The condition for the "Users Emailed" group: both email statuses are true. */
  predicate IsEmailed(c: Company, u: User)
  {
    UserEmails(u) && CompanyEmails(c)
  }

  /**
   * The users of `s` that land in the emailed group (`emailed` true) or in
   * the not-emailed group (`emailed` false), in the order of `s`.
   */
  function Group(c: Company, s: seq<User>, emailed: bool): seq<User>
    decreases |s|
  {
    if s == [] then []
    else
      var init := Group(c, s[..|s| - 1], emailed);
      if IsEmailed(c, s[|s| - 1]) == emailed then init + [s[|s| - 1]] else init
  }

  /** A group holds exactly the users of `s` whose email condition is `emailed`. */
  lemma {:induction false} GroupMembers(c: Company, s: seq<User>, emailed: bool)
    ensures forall u :: u in Group(c, s, emailed) <==> u in s && IsEmailed(c, u) == emailed
    decreases |s|
  {
    if s != [] {
      assert s == s[..|s| - 1] + [s[|s| - 1]];
      GroupMembers(c, s[..|s| - 1], emailed);
    }
  }

  // ---------------------------------------------------------------------
  // The lines of one company

  /** The block of user `u` under company `c`: new balance is tokens plus the top-up. */
  function Entry(c: Company, u: User): Line
  {
    UserEntry(LastName(u), FirstName(u), Email(u), Tokens(u), Tokens(u) + TopUp(c))
  }

  function Entries(c: Company, us: seq<User>): seq<Line>
  {
    seq(|us|, i requires 0 <= i < |us| => Entry(c, us[i]))
  }

  /** A group's lines: its header and its entries, or nothing when it is empty. */
  function GroupLines(header: Line, entries: seq<Line>): seq<Line>
  {
    if entries == [] then [] else [header] + entries
  }

  /** Everything written for company `c`: nothing at all when it has no id. */
  function Section(c: Company, users: seq<User>): seq<Line>
  {
    match c.id
    case None => []
    case Some(id) =>
      var listed := Selected(id, users);
      [CompanyIdLine(id), CompanyNameLine(CompanyName(c))]
      + GroupLines(EmailedHeader, Entries(c, Group(c, listed, true)))
      + GroupLines(NotEmailedHeader, Entries(c, Group(c, listed, false)))
      + [TotalLine(CompanyName(c), TopUp(c) * |listed|), Blank]
  }

  /** The sections of `cs`, in the order of `cs`. */
  function Sections(cs: seq<Company>, users: seq<User>): seq<Line>
    decreases |cs|
  {
    if cs == [] then []
    else Sections(cs[..|cs| - 1], users) + Section(cs[|cs| - 1], users)
  }

  /** The whole report: the sections of the companies in id order. */
  function Report(cs: seq<Company>, users: seq<User>): seq<Line>
  {
    Sections(SortCompanies(cs), users)
  }

  /** A company with an id: its header, its two groups, its total and the separator. */
  lemma SectionShape(c: Company, id: int, users: seq<User>)
    requires c.id == Some(id)
    ensures var listed := Selected(id, users);
      Section(c, users)
      == [CompanyIdLine(id), CompanyNameLine(CompanyName(c))]
      + GroupLines(EmailedHeader, Entries(c, Group(c, listed, true)))
      + GroupLines(NotEmailedHeader, Entries(c, Group(c, listed, false)))
      + [TotalLine(CompanyName(c), TopUp(c) * |listed|), Blank]
  {
  }

  // ---------------------------------------------------------------------
  // Text

  /**
   * The string each `puts` is given. The blank separator is `puts "\n"`;
   * every other line is given some visible text.
   */
  function Render(l: Line): (r: string)
    ensures r != []
    ensures r == "\n" <==> l.Blank?
  {
    match l
    case CompanyIdLine(id) => "Company Id: " + IntToString(id)
    case CompanyNameLine(name) => "Company Name: " + name
    case EmailedHeader => "Users Emailed:"
    case NotEmailedHeader => "Users Not Emailed:"
    case UserEntry(last, first, email, previous, balance) =>
      last + ", " + first + ", " + email
      + "\n" + "  Previous Token Balance, " + IntToString(previous)
      + "\n" + "  New Token Balance " + IntToString(balance)
    case TotalLine(name, total) => "Total amount of top ups for " + name + ": " + IntToString(total)
    case Blank => "\n"
  }

  /**
   * What `IO#puts` writes for a string: the string, followed by a newline
   * unless it already ends in one.
   */
  function Puts(s: string): (r: string)
    ensures |s| <= |r| <= |s| + 1
    ensures r[..|s|] == s
    ensures r != [] && r[|r| - 1] == '\n'
    ensures r == s <==> s != [] && s[|s| - 1] == '\n'
  {
    if s != [] && s[|s| - 1] == '\n' then s else s + "\n"
  }

  /** What the `puts` of one line writes. */
  function Written(l: Line): string
  {
    Puts(Render(l))
  }

  /** The strings `f` gives for the items of `xs`, one after the other. */
  function Concat<T>(xs: seq<T>, f: T -> string): string
    decreases |xs|
  {
    if xs == [] then ""
    else Concat(xs[..|xs| - 1], f) + f(xs[|xs| - 1])
  }

  /** The text of the output file: what the `puts` calls write, in order. */
  function Text(lines: seq<Line>): string
  {
    Concat(lines, Written)
  }

  // ---------------------------------------------------------------------
  // The loops of challenge.rb

  lemma EntriesSnoc(c: Company, us: seq<User>, u: User)
    ensures Entries(c, us + [u]) == Entries(c, us) + [Entry(c, u)]
  {
  }

  /** Extending the walked prefix by one user extends exactly one group. */
  lemma GroupsStep(c: Company, s: seq<User>, j: nat, b: bool)
    requires j < |s|
    ensures Entries(c, Group(c, s[..j + 1], b))
         == Entries(c, Group(c, s[..j], b)) + (if IsEmailed(c, s[j]) == b then [Entry(c, s[j])] else [])
  {
    assert s[..j + 1][..j] == s[..j];
    EntriesSnoc(c, Group(c, s[..j], b), s[j]);
  }

  /**
   * The loop over a company's selected users: each user's block is
   * appended to the emailed or the not-emailed group, and the company's
   * top-up is added to the running total once per user.
   */
  method SplitUsers(c: Company, listed: seq<User>) returns (emailed: seq<Line>, notEmailed: seq<Line>, total: int)
    ensures emailed == Entries(c, Group(c, listed, true))
    ensures notEmailed == Entries(c, Group(c, listed, false))
    ensures total == TopUp(c) * |listed|
  {
    var topUp := TopUp(c);
    var companyEmails := CompanyEmails(c);
    total := 0;
    emailed := [];
    notEmailed := [];
    var j := 0;
    while j < |listed|
      invariant 0 <= j <= |listed|
      invariant emailed == Entries(c, Group(c, listed[..j], true))
      invariant notEmailed == Entries(c, Group(c, listed[..j], false))
      invariant total == topUp * j
    {
      var u := listed[j];
      var entry := UserEntry(LastName(u), FirstName(u), Email(u), Tokens(u), Tokens(u) + topUp);
      assert entry == Entry(c, u);
      GroupsStep(c, listed, j, true);
      GroupsStep(c, listed, j, false);
      assert topUp * (j + 1) == topUp * j + topUp;
      if UserEmails(u) && companyEmails {
        emailed := emailed + [entry];
      } else {
        notEmailed := notEmailed + [entry];
      }
      total := total + topUp;
      j := j + 1;
    }
    assert listed[..j] == listed;
  }

  /**
   * One iteration of the company loop: reads the fields, skips a company
   * without id, writes the header, splits the selected users, then writes
   * the non-empty groups, the total and the separator.
   */
  method EmitCompany(c: Company, users: seq<User>) returns (section: seq<Line>)
    ensures section == Section(c, users)
  {
    var name := CompanyName(c);
    if c.id.None? {
      return [];
    }
    var id := c.id.value;
    section := [CompanyIdLine(id), CompanyNameLine(name)];

    var emailed, notEmailed, total := SplitUsers(c, Selected(id, users));

    if |emailed| > 0 {
      section := section + [EmailedHeader] + emailed;
    }
    assert section == [CompanyIdLine(id), CompanyNameLine(name)] + GroupLines(EmailedHeader, emailed);
    if |notEmailed| > 0 {
      section := section + [NotEmailedHeader] + notEmailed;
    }
    assert section == [CompanyIdLine(id), CompanyNameLine(name)]
      + GroupLines(EmailedHeader, emailed) + GroupLines(NotEmailedHeader, notEmailed);
    section := section + [TotalLine(name, total), Blank];
    SectionShape(c, id, users);
  }

  lemma SectionsStep(cs: seq<Company>, users: seq<User>, i: nat)
    requires i < |cs|
    ensures Sections(cs[..i + 1], users) == Sections(cs[..i], users) + Section(cs[i], users)
  {
    assert cs[..i + 1][..i] == cs[..i];
  }

  /** The loop over the companies sorted by id, appending each company's lines. */
  method BuildReport(companies: seq<Company>, users: seq<User>) returns (lines: seq<Line>)
    ensures lines == Report(companies, users)
  {
    var sorted := SortCompanies(companies);
    lines := [];
    var i := 0;
    while i < |sorted|
      invariant 0 <= i <= |sorted|
      invariant lines == Sections(sorted[..i], users)
    {
      var section := EmitCompany(sorted[i], users);
      SectionsStep(sorted, users, i);
      lines := lines + section;
      i := i + 1;
    }
    assert sorted[..i] == sorted;
  }
}
