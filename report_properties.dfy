/**
 * What the report promises about its inputs: which companies and users
 * appear, in what order, in which group, with which balances and totals.
 */
module ReportProperties {
  import opened Wrappers
  import opened Records
  import opened Sorting
  import opened ReportBuilder
  import opened Decimal

  // ---------------------------------------------------------------------
  // Users of one company

  lemma InSelected(id: int, users: seq<User>, u: User)
    ensures u in Selected(id, users) <==> u in users && Matches(id, u)
  {
    assert u in Selected(id, users) <==> u in multiset(Selected(id, users));
    assert u in Select(id, users) <==> u in multiset(Select(id, users));
  }

  /** Each user of `s` is in exactly one of the two groups. */
  lemma {:induction false} GroupPartition(c: Company, s: seq<User>)
    ensures multiset(Group(c, s, true)) + multiset(Group(c, s, false)) == multiset(s)
    decreases |s|
  {
    if s != [] {
      var init := s[..|s| - 1];
      GroupPartition(c, init);
      assert s == init + [s[|s| - 1]];
    }
  }

  /** A group keeps the order of the sequence it is taken from. */
  lemma {:induction false} GroupSorted(c: Company, s: seq<User>, b: bool, le: (User, User) -> bool)
    requires SortedBy(s, le)
    ensures SortedBy(Group(c, s, b), le)
    decreases |s|
  {
    if s != [] {
      var init, last := s[..|s| - 1], s[|s| - 1];
      assert SortedBy(init, le) by {
        forall i, j | 0 <= i < j < |init| ensures le(init[i], init[j]) {
          assert init[i] == s[i] && init[j] == s[j];
        }
      }
      GroupSorted(c, init, b, le);
      GroupMembers(c, init, b);
      var g := Group(c, init, b);
      if IsEmailed(c, last) == b {
        forall y | y in g ensures le(y, last) {
          var k :| 0 <= k < |init| && init[k] == y;
          assert s[k] == y;
        }
        var r := g + [last];
        forall i, j | 0 <= i < j < |r| ensures le(r[i], r[j]) {
          if j == |r| - 1 {
            assert r[i] in g;
          } else {
            assert r[i] == g[i] && r[j] == g[j];
          }
        }
      }
    }
  }

  /**
   * The two groups of company `c` split its selected users: a user is in the
   * emailed group iff it belongs to `c`, is active, and both the user's and
   * the company's email status are true; in the not-emailed group iff it
   * belongs to `c`, is active and not both are true. No user is in both,
   * none is lost, and each group is in last-name order.
   */
  lemma GroupsOfCompany(c: Company, id: int, users: seq<User>)
    ensures var listed := Selected(id, users);
      var emailed, notEmailed := Group(c, listed, true), Group(c, listed, false);
      && multiset(emailed) + multiset(notEmailed) == multiset(Select(id, users))
      && (forall u :: u in emailed <==> u in users && Matches(id, u) && IsEmailed(c, u))
      && (forall u :: u in notEmailed <==> u in users && Matches(id, u) && !IsEmailed(c, u))
      && SortedBy(emailed, UserLe)
      && SortedBy(notEmailed, UserLe)
  {
    var listed := Selected(id, users);
    GroupPartition(c, listed);
    GroupMembers(c, listed, true);
    GroupMembers(c, listed, false);
    forall u ensures u in listed <==> u in users && Matches(id, u) {
      InSelected(id, users, u);
    }
    SelectedOrdered(id, users);
    GroupSorted(c, listed, true, UserLe);
    GroupSorted(c, listed, false, UserLe);
  }

  // ---------------------------------------------------------------------
  // The lines of one company

  /** The lines of a section that are not user blocks are its fixed lines and group headers. */
  lemma SectionParts(c: Company, id: int, users: seq<User>, l: Line)
    requires c.id == Some(id)
    requires l in Section(c, users)
    ensures var listed := Selected(id, users);
      || l in Entries(c, Group(c, listed, true))
      || l in Entries(c, Group(c, listed, false))
      || l == CompanyIdLine(id) || l == CompanyNameLine(CompanyName(c))
      || (l == EmailedHeader && Group(c, listed, true) != [])
      || (l == NotEmailedHeader && Group(c, listed, false) != [])
      || l.TotalLine? || l.Blank?
  {
    var listed := Selected(id, users);
    var e, n := Entries(c, Group(c, listed, true)), Entries(c, Group(c, listed, false));
    SectionShape(c, id, users);
    LayoutMembership([CompanyIdLine(id), CompanyNameLine(CompanyName(c))], e, n,
      [TotalLine(CompanyName(c), TopUp(c) * |listed|), Blank], l);
  }

  lemma LayoutMembership(head: seq<Line>, e: seq<Line>, n: seq<Line>, tail: seq<Line>, l: Line)
    requires l in head + GroupLines(EmailedHeader, e) + GroupLines(NotEmailedHeader, n) + tail
    ensures || l in head || l in e || l in n || l in tail
            || (l == EmailedHeader && e != []) || (l == NotEmailedHeader && n != [])
  {
  }

  /** Every block of the two groups is a line of the section. */
  lemma SectionHasEntries(c: Company, id: int, users: seq<User>, l: Line)
    requires c.id == Some(id)
    requires l in Entries(c, Group(c, Selected(id, users), true))
          || l in Entries(c, Group(c, Selected(id, users), false))
    ensures l in Section(c, users)
  {
  }

  lemma EntriesMembership(c: Company, us: seq<User>, l: Line)
    ensures l in Entries(c, us) <==> exists u :: u in us && l == Entry(c, u)
  {
    if l in Entries(c, us) {
      var i :| 0 <= i < |us| && Entries(c, us)[i] == l;
      assert us[i] in us;
    }
    if exists u :: u in us && l == Entry(c, u) {
      var u :| u in us && l == Entry(c, u);
      var i :| 0 <= i < |us| && us[i] == u;
      assert Entries(c, us)[i] == l;
    }
  }

  /**
   * The user blocks of a company's section are exactly those of its active
   * users: every block belongs to a user of the company that is active, and
   * every such user has its block. Each block shows the user's tokens as the
   * previous balance and tokens plus the company's top-up as the new one.
   */
  lemma SectionListsActiveUsers(c: Company, users: seq<User>)
    ensures forall l :: l in Section(c, users) && l.UserEntry? ==>
      c.id.Some? && exists u :: u in users && Matches(c.id.value, u) && l == Entry(c, u)
    ensures forall u :: c.id.Some? && u in users && Matches(c.id.value, u) ==> Entry(c, u) in Section(c, users)
    ensures forall l :: l in Section(c, users) && l.UserEntry? ==> l.balance == l.previous + TopUp(c)
  {
    if c.id.Some? {
      var id := c.id.value;
      var listed := Selected(id, users);
      var emailed, notEmailed := Group(c, listed, true), Group(c, listed, false);
      GroupsOfCompany(c, id, users);
      forall l | l in Section(c, users) && l.UserEntry?
        ensures exists u :: u in users && Matches(id, u) && l == Entry(c, u)
      {
        SectionParts(c, id, users, l);
        if l in Entries(c, emailed) {
          EntriesMembership(c, emailed, l);
        } else {
          assert l in Entries(c, notEmailed);
          EntriesMembership(c, notEmailed, l);
        }
      }
      forall u | u in users && Matches(id, u) ensures Entry(c, u) in Section(c, users) {
        if IsEmailed(c, u) {
          EntriesMembership(c, emailed, Entry(c, u));
        } else {
          EntriesMembership(c, notEmailed, Entry(c, u));
        }
        SectionHasEntries(c, id, users, Entry(c, u));
      }
    }
  }

  /**
   * "Users Emailed:" is written for a company iff it has an id and some
   * active user of it is emailed; "Users Not Emailed:" iff it has an id and
   * some active user of it is not.
   */
  lemma SectionGroupHeaders(c: Company, users: seq<User>)
    ensures EmailedHeader in Section(c, users) <==>
      c.id.Some? && exists u :: u in users && Matches(c.id.value, u) && IsEmailed(c, u)
    ensures NotEmailedHeader in Section(c, users) <==>
      c.id.Some? && exists u :: u in users && Matches(c.id.value, u) && !IsEmailed(c, u)
  {
    if c.id.Some? {
      var id := c.id.value;
      var listed := Selected(id, users);
      var emailed, notEmailed := Group(c, listed, true), Group(c, listed, false);
      SectionShape(c, id, users);
      HeadersOfLayout([CompanyIdLine(id), CompanyNameLine(CompanyName(c))],
        Entries(c, emailed), Entries(c, notEmailed),
        [TotalLine(CompanyName(c), TopUp(c) * |listed|), Blank]);
      GroupsOfCompany(c, id, users);
      NonEmptyIff(emailed);
      NonEmptyIff(notEmailed);
    }
  }

  lemma NonEmptyIff(s: seq<User>)
    ensures s != [] <==> exists u :: u in s
  {
    if s != [] {
      assert s[0] in s;
    }
  }

  /** A group header is written exactly when the group has an entry. */
  lemma HeadersOfLayout(head: seq<Line>, emailed: seq<Line>, notEmailed: seq<Line>, tail: seq<Line>)
    requires forall l :: l in head ==> !l.EmailedHeader? && !l.NotEmailedHeader?
    requires forall l :: l in tail ==> !l.EmailedHeader? && !l.NotEmailedHeader?
    requires forall l :: l in emailed ==> l.UserEntry?
    requires forall l :: l in notEmailed ==> l.UserEntry?
    ensures var lines := head + GroupLines(EmailedHeader, emailed) + GroupLines(NotEmailedHeader, notEmailed) + tail;
      && (EmailedHeader in lines <==> emailed != [])
      && (NotEmailedHeader in lines <==> notEmailed != [])
  {
    var e, n := GroupLines(EmailedHeader, emailed), GroupLines(NotEmailedHeader, notEmailed);
    assert EmailedHeader !in emailed && EmailedHeader !in notEmailed;
    assert NotEmailedHeader !in emailed && NotEmailedHeader !in notEmailed;
    assert EmailedHeader !in head && EmailedHeader !in tail;
    assert NotEmailedHeader !in head && NotEmailedHeader !in tail;
  }

  /**
   * A company with an id opens with its id and name lines and closes with
   * the total line and a blank line; the total is the top-up times the
   * number of its active users.
   */
  lemma SectionFrame(c: Company, id: int, users: seq<User>)
    requires c.id == Some(id)
    ensures var section := Section(c, users);
      && |section| >= 4
      && section[..2] == [CompanyIdLine(id), CompanyNameLine(CompanyName(c))]
      && section[|section| - 2..] == [TotalLine(CompanyName(c), TopUp(c) * |Select(id, users)|), Blank]
  {
    var listed := Selected(id, users);
    assert |listed| == |multiset(listed)| == |Select(id, users)|;
    SectionShape(c, id, users);
    FrameOfLayout([CompanyIdLine(id), CompanyNameLine(CompanyName(c))],
      GroupLines(EmailedHeader, Entries(c, Group(c, listed, true))),
      GroupLines(NotEmailedHeader, Entries(c, Group(c, listed, false))),
      [TotalLine(CompanyName(c), TopUp(c) * |listed|), Blank]);
  }

  lemma FrameOfLayout(head: seq<Line>, e: seq<Line>, n: seq<Line>, tail: seq<Line>)
    requires |head| == 2 && |tail| == 2
    ensures var s := head + e + n + tail;
      && |s| >= 4 && s[..2] == head && s[|s| - 2..] == tail
  {
  }

  /**
   * A company with an id but no active user writes its header, a total of
   * 0 and the blank line, and nothing else.
   */
  lemma SectionWithoutUsers(c: Company, id: int, users: seq<User>)
    requires c.id == Some(id)
    requires forall u :: u in users ==> !Matches(id, u)
    ensures Section(c, users)
         == [CompanyIdLine(id), CompanyNameLine(CompanyName(c)), TotalLine(CompanyName(c), 0), Blank]
  {
    var listed := Selected(id, users);
    if listed != [] {
      InSelected(id, users, listed[0]);
      assert false;
    }
  }

  // ---------------------------------------------------------------------
  // The whole report

  /** The ids of the "Company Id:" lines, in order. */
  function HeaderIds(lines: seq<Line>): seq<int>
    decreases |lines|
  {
    if lines == [] then []
    else
      var last := lines[|lines| - 1];
      HeaderIds(lines[..|lines| - 1]) + (if last.CompanyIdLine? then [last.id] else [])
  }

  /** The ids of the companies that have one, in order. */
  function PresentIds(cs: seq<Company>): (r: seq<int>)
    ensures forall k :: k in r <==> exists c :: c in cs && c.id == Some(k)
    decreases |cs|
  {
    if cs == [] then []
    else
      var last := cs[|cs| - 1];
      assert cs == cs[..|cs| - 1] + [last];
      PresentIds(cs[..|cs| - 1]) + (if last.id.Some? then [last.id.value] else [])
  }

  lemma {:induction false} HeaderIdsAppend(a: seq<Line>, b: seq<Line>)
    ensures HeaderIds(a + b) == HeaderIds(a) + HeaderIds(b)
    decreases |b|
  {
    if b == [] {
      assert a + b == a;
    } else {
      assert (a + b)[..|a + b| - 1] == a + b[..|b| - 1];
      assert (a + b)[|a + b| - 1] == b[|b| - 1];
      HeaderIdsAppend(a, b[..|b| - 1]);
    }
  }

  lemma {:induction false} PresentIdsAppend(a: seq<Company>, b: seq<Company>)
    ensures PresentIds(a + b) == PresentIds(a) + PresentIds(b)
    decreases |b|
  {
    if b == [] {
      assert a + b == a;
    } else {
      assert (a + b)[..|a + b| - 1] == a + b[..|b| - 1];
      assert (a + b)[|a + b| - 1] == b[|b| - 1];
      PresentIdsAppend(a, b[..|b| - 1]);
    }
  }

  lemma {:induction false} HeaderIdsOfOtherLines(lines: seq<Line>)
    requires forall l :: l in lines ==> !l.CompanyIdLine?
    ensures HeaderIds(lines) == []
    decreases |lines|
  {
    if lines != [] {
      HeaderIdsOfOtherLines(lines[..|lines| - 1]);
    }
  }

  lemma HeaderIdsOfSection(c: Company, users: seq<User>)
    ensures HeaderIds(Section(c, users)) == PresentIds([c])
  {
    PresentIdsSingle(c);
    if c.id.Some? {
      var id := c.id.value;
      var listed := Selected(id, users);
      GroupHasNoIdLine(EmailedHeader, c, Group(c, listed, true));
      GroupHasNoIdLine(NotEmailedHeader, c, Group(c, listed, false));
      SectionShape(c, id, users);
      HeaderIdsOfLayout(id, CompanyName(c),
        GroupLines(EmailedHeader, Entries(c, Group(c, listed, true))),
        GroupLines(NotEmailedHeader, Entries(c, Group(c, listed, false))),
        [TotalLine(CompanyName(c), TopUp(c) * |listed|), Blank]);
    }
  }

  lemma GroupHasNoIdLine(header: Line, c: Company, us: seq<User>)
    requires !header.CompanyIdLine?
    ensures forall l :: l in GroupLines(header, Entries(c, us)) ==> !l.CompanyIdLine?
  {
    EntriesAreUserEntries(c, us);
  }

  lemma PresentIdsSingle(c: Company)
    ensures PresentIds([c]) == if c.id.Some? then [c.id.value] else []
  {
    assert [c][..0] == [];
  }

  lemma EntriesAreUserEntries(c: Company, us: seq<User>)
    ensures forall l :: l in Entries(c, us) ==> l.UserEntry?
  {
  }

  /** Only the first line of a section is a "Company Id:" line. */
  lemma HeaderIdsOfLayout(id: int, name: string, e: seq<Line>, n: seq<Line>, tail: seq<Line>)
    requires forall l :: l in e ==> !l.CompanyIdLine?
    requires forall l :: l in n ==> !l.CompanyIdLine?
    requires forall l :: l in tail ==> !l.CompanyIdLine?
    ensures HeaderIds([CompanyIdLine(id), CompanyNameLine(name)] + e + n + tail) == [id]
  {
    var head := [CompanyIdLine(id), CompanyNameLine(name)];
    assert HeaderIds(head) == [id] by {
      assert head[..1] == [CompanyIdLine(id)];
      assert HeaderIds(head[..1]) == [id] by {
        assert head[..1][..0] == [];
      }
    }
    HeaderIdsOfOtherLines(e + n + tail);
    HeaderIdsAppend(head, e + n + tail);
    assert head + e + n + tail == head + (e + n + tail);
  }

  lemma {:induction false} HeaderIdsOfSections(cs: seq<Company>, users: seq<User>)
    ensures HeaderIds(Sections(cs, users)) == PresentIds(cs)
    decreases |cs|
  {
    if cs != [] {
      var init, last := cs[..|cs| - 1], cs[|cs| - 1];
      var front, back := Sections(init, users), Section(last, users);
      assert cs == init + [last];
      calc {
        HeaderIds(Sections(cs, users));
        HeaderIds(front + back);
        { HeaderIdsAppend(front, back); }
        HeaderIds(front) + HeaderIds(back);
        { HeaderIdsOfSections(init, users); HeaderIdsOfSection(last, users); }
        PresentIds(init) + PresentIds([last]);
        { PresentIdsAppend(init, [last]); }
        PresentIds(cs);
      }
    }
  }

  ghost predicate NonDecreasing(ids: seq<int>)
  {
    forall i, j :: 0 <= i < j < |ids| ==> ids[i] <= ids[j]
  }

  lemma {:induction false} PresentIdsSorted(cs: seq<Company>)
    requires SortedBy(cs, CompanyLe)
    ensures NonDecreasing(PresentIds(cs))
    decreases |cs|
  {
    if cs != [] {
      var init, last := cs[..|cs| - 1], cs[|cs| - 1];
      assert SortedBy(init, CompanyLe) by {
        forall i, j | 0 <= i < j < |init| ensures CompanyLe(init[i], init[j]) {
          assert init[i] == cs[i] && init[j] == cs[j];
        }
      }
      PresentIdsSorted(init);
      var prev := PresentIds(init);
      if last.id.Some? {
        forall k | k in prev ensures k <= last.id.value {
          var c :| c in init && c.id == Some(k);
          var i :| 0 <= i < |init| && init[i] == c;
          assert CompanyLe(cs[i], cs[|cs| - 1]);
        }
        var ids := prev + [last.id.value];
        assert PresentIds(cs) == ids;
        forall i, j | 0 <= i < j < |ids| ensures ids[i] <= ids[j] {
          if j == |ids| - 1 {
            assert ids[i] == prev[i] && prev[i] in prev;
          } else {
            assert ids[i] == prev[i] && ids[j] == prev[j];
          }
        }
      } else {
        assert PresentIds(cs) == prev;
      }
    }
  }

  /** Reordering the companies reorders their ids and nothing more. */
  lemma {:induction false} PresentIdsPermutation(s: seq<Company>, t: seq<Company>)
    requires multiset(s) == multiset(t)
    ensures multiset(PresentIds(s)) == multiset(PresentIds(t))
    decreases |s|
  {
    if s == [] {
      assert |t| == |multiset(t)| == 0;
    } else {
      var init, x := s[..|s| - 1], s[|s| - 1];
      assert s == init + [x];
      assert x in multiset(t);
      var k :| 0 <= k < |t| && t[k] == x;
      var before, after := t[..k], t[k + 1..];
      assert t == before + [x] + after;
      var rest := before + after;
      MultisetRemove(init, x, before, after);
      PresentIdsPermutation(init, rest);
      PresentIdsAppend(init, [x]);
      PresentIdsAppend(before, [x]);
      PresentIdsAppend(before + [x], after);
      PresentIdsAppend(before, after);
      calc {
        multiset(PresentIds(t));
        multiset(PresentIds(before) + PresentIds([x]) + PresentIds(after));
        multiset(PresentIds(rest)) + multiset(PresentIds([x]));
        multiset(PresentIds(init)) + multiset(PresentIds([x]));
        multiset(PresentIds(s));
      }
    }
  }

  lemma MultisetRemove(init: seq<Company>, x: Company, before: seq<Company>, after: seq<Company>)
    requires multiset(init + [x]) == multiset(before + [x] + after)
    ensures multiset(init) == multiset(before + after)
  {
    var m := multiset{x};
    assert multiset(init + [x]) == multiset(init) + m;
    assert multiset(before + [x] + after) == multiset(before) + m + multiset(after);
    assert multiset(before + after) == multiset(before) + multiset(after);
    assert multiset(init) == multiset(init + [x]) - m;
    assert multiset(before + after) == multiset(before + [x] + after) - m;
  }

  /**
   * The "Company Id:" lines of the report are in non-decreasing id order,
   * and they are the ids of the input companies that have one, each as
   * often as it occurs: companies without an id write no header.
   */
  lemma ReportCompanyOrder(cs: seq<Company>, users: seq<User>)
    ensures NonDecreasing(HeaderIds(Report(cs, users)))
    ensures multiset(HeaderIds(Report(cs, users))) == multiset(PresentIds(cs))
  {
    var sorted := SortCompanies(cs);
    HeaderIdsOfSections(sorted, users);
    SortCompaniesOrdered(cs);
    PresentIdsSorted(sorted);
    PresentIdsPermutation(sorted, cs);
  }

  lemma {:induction false} SectionsMembership(cs: seq<Company>, users: seq<User>, l: Line)
    ensures l in Sections(cs, users) <==> exists c :: c in cs && l in Section(c, users)
    decreases |cs|
  {
    if cs != [] {
      var init, last := cs[..|cs| - 1], cs[|cs| - 1];
      assert cs == init + [last];
      SectionsMembership(init, users, l);
    }
  }

  /**
   * Every user block of the report belongs to a company with an id and an
   * active user of that company, and shows that user's tokens and tokens
   * plus that company's top-up; every such pair has its block. So inactive
   * users and users whose company is absent never appear.
   */
  lemma ReportListsActiveUsers(cs: seq<Company>, users: seq<User>)
    ensures forall l :: l in Report(cs, users) && l.UserEntry? ==>
      exists c, u :: c in cs && u in users && c.id.Some? && Matches(c.id.value, u) && l == Entry(c, u)
    ensures forall c, u :: c in cs && u in users && c.id.Some? && Matches(c.id.value, u) ==>
      Entry(c, u) in Report(cs, users)
  {
    var sorted := SortCompanies(cs);
    assert forall c :: c in sorted <==> c in cs by {
      forall c ensures c in sorted <==> c in cs {
        assert c in sorted <==> c in multiset(sorted);
        assert c in cs <==> c in multiset(cs);
      }
    }
    forall l | l in Report(cs, users) && l.UserEntry?
      ensures exists c, u :: c in cs && u in users && c.id.Some? && Matches(c.id.value, u) && l == Entry(c, u)
    {
      SectionsMembership(sorted, users, l);
      var c :| c in sorted && l in Section(c, users);
      SectionListsActiveUsers(c, users);
    }
    forall c, u | c in cs && u in users && c.id.Some? && Matches(c.id.value, u)
      ensures Entry(c, u) in Report(cs, users)
    {
      SectionListsActiveUsers(c, users);
      SectionsMembership(sorted, users, Entry(c, u));
    }
  }

  /** Adding a company without an id changes nothing in the report. */
  lemma CompanyWithoutIdIgnored(cs: seq<Company>, c: Company, users: seq<User>)
    requires c.id.None?
    ensures Report(cs + [c], users) == Report(cs, users)
  {
    SortByAppendGreatest(cs, c, CompanyLe);
    var sorted := SortCompanies(cs);
    assert SortCompanies(cs + [c]) == sorted + [c];
    assert (sorted + [c])[..|sorted|] == sorted;
  }

  // ---------------------------------------------------------------------
  // Text

  function NewlineCount(s: string): nat
    decreases |s|
  {
    if s == [] then 0 else NewlineCount(s[..|s| - 1]) + (if s[|s| - 1] == '\n' then 1 else 0)
  }

  lemma {:induction false} NewlineCountAppend(a: string, b: string)
    ensures NewlineCount(a + b) == NewlineCount(a) + NewlineCount(b)
    decreases |b|
  {
    if b == [] {
      assert a + b == a;
    } else {
      assert (a + b)[..|a + b| - 1] == a + b[..|b| - 1];
      assert (a + b)[|a + b| - 1] == b[|b| - 1];
      NewlineCountAppend(a, b[..|b| - 1]);
    }
  }

  lemma {:induction false} NoNewlineCount(s: string)
    requires '\n' !in s
    ensures NewlineCount(s) == 0
    decreases |s|
  {
    if s != [] {
      assert s[|s| - 1] in s;
      NoNewlineCount(s[..|s| - 1]);
    }
  }

  /** The record strings a line shows contain no line break. */
  predicate OnOneLine(l: Line)
  {
    match l
    case CompanyNameLine(name) => '\n' !in name
    case UserEntry(last, first, email, _, _) => '\n' !in last && '\n' !in first && '\n' !in email
    case TotalLine(name, _) => '\n' !in name
    case _ => true
  }

  /**
   * Each `puts` writes one line of text, except a user's block, which is
   * three: the name and email, the previous balance, and the new balance.
   */
  lemma PutsLineBreaks(l: Line)
    requires OnOneLine(l)
    ensures NewlineCount(Puts(Render(l))) == if l.UserEntry? then 3 else 1
  {
    var nl := "\n";
    assert NewlineCount(nl) == 1 by {
      assert nl[..0] == [];
    }
    if l.Blank? {
      assert Puts(Render(l)) == nl;
    } else {
      var r := Render(l);
      if l.UserEntry? {
        EntryLineBreaks(l.lastName, l.firstName, l.email, l.previous, l.balance);
        EntryEnding(l.lastName, l.firstName, l.email, l.previous, l.balance);
      } else {
        OneLineText(l);
        NoNewlineCount(r);
        assert r[|r| - 1] in r;
      }
      assert Puts(r) == r + nl;
      NewlineCountAppend(r, nl);
    }
  }

  /** A line other than a user's block or the separator is given no line break. */
  lemma OneLineText(l: Line)
    requires OnOneLine(l) && !l.UserEntry? && !l.Blank?
    ensures '\n' !in Render(l)
  {
    match l
    case CompanyIdLine(id) => DecimalOnOneLine(id);
    case TotalLine(name, total) => DecimalOnOneLine(total);
    case _ =>
  }

  /** A user's block ends with a digit of the new balance, not a line break. */
  lemma EntryEnding(last: string, first: string, email: string, previous: int, balance: int)
    requires '\n' !in last && '\n' !in first && '\n' !in email
    ensures var r := Render(UserEntry(last, first, email, previous, balance));
      r[|r| - 1] != '\n'
  {
    EntryTextLines(last, first, email, previous, balance);
    var newLine := "  New Token Balance " + IntToString(balance);
    assert newLine[|newLine| - 1] in newLine;
  }

  lemma DecimalOnOneLine(i: int)
    ensures '\n' !in IntToString(i)
  {
    IntToStringRoundTrip(i);
  }

  lemma EntryLineBreaks(last: string, first: string, email: string, previous: int, balance: int)
    requires '\n' !in last && '\n' !in first && '\n' !in email
    ensures NewlineCount(Render(UserEntry(last, first, email, previous, balance))) == 2
  {
    EntryTextLines(last, first, email, previous, balance);
    ThreeLines(last + ", " + first + ", " + email,
      "  Previous Token Balance, " + IntToString(previous),
      "  New Token Balance " + IntToString(balance));
  }

  /** A user's block is a name line, a previous-balance line and a new-balance line. */
  lemma EntryTextLines(last: string, first: string, email: string, previous: int, balance: int)
    requires '\n' !in last && '\n' !in first && '\n' !in email
    ensures var head := last + ", " + first + ", " + email;
      var prevLine := "  Previous Token Balance, " + IntToString(previous);
      var newLine := "  New Token Balance " + IntToString(balance);
      && Render(UserEntry(last, first, email, previous, balance)) == head + "\n" + prevLine + "\n" + newLine
      && '\n' !in head && '\n' !in prevLine && '\n' !in newLine
  {
    DecimalLine("  Previous Token Balance, ", previous);
    DecimalLine("  New Token Balance ", balance);
    assert '\n' !in last + ", " + first + ", " + email;
  }

  lemma DecimalLine(prefix: string, i: int)
    requires '\n' !in prefix
    ensures '\n' !in prefix + IntToString(i)
  {
    DecimalOnOneLine(i);
  }

  lemma ThreeLines(x: string, y: string, z: string)
    requires '\n' !in x && '\n' !in y && '\n' !in z
    ensures NewlineCount(x + "\n" + y + "\n" + z) == 2
  {
    NoNewlineCount(x);
    NoNewlineCount(y);
    NoNewlineCount(z);
    var nl := "\n";
    assert NewlineCount(nl) == 1 by {
      assert nl[..0] == [];
    }
    NewlineCountAppend(x, nl);
    NewlineCountAppend(x + nl, y);
    NewlineCountAppend(x + nl + y, nl);
    NewlineCountAppend(x + nl + y + nl, z);
  }

  /** The number of users' blocks among `lines`. */
  function EntryCount(lines: seq<Line>): nat
    decreases |lines|
  {
    if lines == [] then 0
    else EntryCount(lines[..|lines| - 1]) + (if lines[|lines| - 1].UserEntry? then 1 else 0)
  }

  /**
   * The output file has one line per `puts`, plus two more for each user's
   * block.
   */
  lemma {:induction false} TextLineCount(lines: seq<Line>)
    requires forall l :: l in lines ==> OnOneLine(l)
    ensures NewlineCount(Text(lines)) == |lines| + 2 * EntryCount(lines)
    decreases |lines|
  {
    if lines != [] {
      var init, last := lines[..|lines| - 1], lines[|lines| - 1];
      assert lines == init + [last];
      assert forall l :: l in init ==> l in lines;
      TextLineCount(init);
      PutsLineBreaks(last);
      assert Text(lines) == Text(init) + Written(last);
      NewlineCountAppend(Text(init), Written(last));
    }
  }

  /** Concatenating the strings of two sequences in turn is concatenating their strings. */
  lemma {:induction false} ConcatAppend<T>(a: seq<T>, b: seq<T>, f: T -> string)
    ensures Concat(a + b, f) == Concat(a, f) + Concat(b, f)
    decreases |b|
  {
    if b == [] {
      assert a + b == a;
    } else {
      var init, last := b[..|b| - 1], b[|b| - 1];
      assert (a + b)[..|a + b| - 1] == a + init;
      assert (a + b)[|a + b| - 1] == last;
      ConcatAppend(a, init, f);
    }
  }

  /** The file's text is the text of its parts, one after the other. */
  lemma TextAppend(a: seq<Line>, b: seq<Line>)
    ensures Text(a + b) == Text(a) + Text(b)
  {
    ConcatAppend(a, b, Written);
  }

  /** The file is empty exactly when nothing is written, and ends in a newline otherwise. */
  lemma TextEnding(lines: seq<Line>)
    ensures Text(lines) == [] <==> lines == []
    ensures lines != [] ==> Text(lines)[|Text(lines)| - 1] == '\n'
  {
    if lines != [] {
      var p := Written(lines[|lines| - 1]);
      assert Text(lines) == Text(lines[..|lines| - 1]) + p;
      assert Text(lines)[|Text(lines)| - 1] == p[|p| - 1];
    }
  }

  /** `puts` leaves a string that already ends in a newline as it is. */
  lemma PutsIdempotent(s: string)
    ensures Puts(s) == s <==> s != [] && s[|s| - 1] == '\n'
    ensures Puts(Puts(s)) == Puts(s)
  {
  }

  /** A company name that ends in a newline gets no second one. */
  lemma NameEndingInNewline()
    ensures Text([CompanyNameLine("A\n")]) == "Company Name: A\n"
  {
    assert [CompanyNameLine("A\n")][..0] == [];
  }

  /**
   * Two companies given out of id order, one without top-up or email
   * status, each with one active user: Beta (id 1) comes first with a total
   * of 0, and Acme's user Doe is emailed, going from 3 to 13 tokens.
   */
  lemma WorkedExample(companies: seq<Company>, users: seq<User>)
    requires companies == [Acme(), Beta()] && users == [Smith(), Doe()]
    ensures Report(companies, users) == [
        CompanyIdLine(1), CompanyNameLine("Beta"),
        NotEmailedHeader, UserEntry("Smith", "Jo", "No Email", 5, 5),
        TotalLine("Beta", 0), Blank] + [
        CompanyIdLine(2), CompanyNameLine("Acme"),
        EmailedHeader, UserEntry("Doe", "Al", "No Email", 3, 13),
        TotalLine("Acme", 10), Blank]
  {
    ExampleOrder();
    SectionsOfTwo(Beta(), Acme(), users);
    WorkedExampleBeta();
    WorkedExampleAcme();
  }

  lemma ExampleOrder()
    ensures SortCompanies([Acme(), Beta()]) == [Beta(), Acme()]
  {
    assert SortBy([Beta()], CompanyLe) == [Beta()];
    assert [Acme(), Beta()][1..] == [Beta()];
  }

  lemma SectionsOfTwo(a: Company, b: Company, users: seq<User>)
    ensures Sections([a, b], users) == Section(a, users) + Section(b, users)
  {
    assert Sections([a], users) == Section(a, users) by {
      assert [a][..0] == [];
      assert Sections([a], users) == Sections([], users) + Section(a, users);
    }
    assert Sections([a, b], users) == Sections([a], users) + Section(b, users) by {
      assert [a, b][..1] == [a];
    }
  }

  function Acme(): Company { Company(Some(2), Some("Acme"), Some(10), Some(true)) }
  function Beta(): Company { Company(Some(1), Some("Beta"), None, None) }
  function Smith(): User { User(Some(1), Some(true), Some("Smith"), Some("Jo"), None, Some(5), None) }
  function Doe(): User { User(Some(2), Some(true), Some("Doe"), Some("Al"), None, Some(3), Some(true)) }

  lemma WorkedExampleBeta()
    ensures Section(Beta(), [Smith(), Doe()]) == [
      CompanyIdLine(1), CompanyNameLine("Beta"),
      NotEmailedHeader, UserEntry("Smith", "Jo", "No Email", 5, 5),
      TotalLine("Beta", 0), Blank]
  {
    var users := [Smith(), Doe()];
    ExampleSelected(1, Smith());
    ExampleGroups(Beta(), Smith());
    SectionShape(Beta(), 1, users);
    assert Entries(Beta(), [Smith()]) == [Entry(Beta(), Smith())];
  }

  lemma WorkedExampleAcme()
    ensures Section(Acme(), [Smith(), Doe()]) == [
      CompanyIdLine(2), CompanyNameLine("Acme"),
      EmailedHeader, UserEntry("Doe", "Al", "No Email", 3, 13),
      TotalLine("Acme", 10), Blank]
  {
    var users := [Smith(), Doe()];
    ExampleSelected(2, Doe());
    ExampleGroups(Acme(), Doe());
    SectionShape(Acme(), 2, users);
    assert Entries(Acme(), [Doe()]) == [Entry(Acme(), Doe())];
  }

  /** In the example, each company has exactly one active user. */
  lemma ExampleSelected(id: int, u: User)
    requires (id == 1 && u == Smith()) || (id == 2 && u == Doe())
    ensures Selected(id, [Smith(), Doe()]) == [u]
  {
    ExampleSelect(id, u);
    assert SortBy([u], UserLe) == [u] by {
      assert [u][1..] == [];
    }
  }

  lemma ExampleSelect(id: int, u: User)
    requires (id == 1 && u == Smith()) || (id == 2 && u == Doe())
    ensures Select(id, [Smith(), Doe()]) == [u]
  {
    var users := [Smith(), Doe()];
    var first := Select(id, [Smith()]);
    assert first == if id == 1 then [Smith()] else [] by {
      assert [Smith()][..0] == [];
    }
    assert users[..1] == [Smith()];
  }

  lemma ExampleGroups(c: Company, u: User)
    ensures Group(c, [u], IsEmailed(c, u)) == [u]
    ensures Group(c, [u], !IsEmailed(c, u)) == []
  {
    assert [u][..0] == [];
  }
}
