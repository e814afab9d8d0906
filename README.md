# Token top-up report

`challenge.rb` reads a list of companies and a list of users. For each
company it writes the following to `output.txt`:

- its id and name;
- its active users, in last-name order, split into those who are emailed
  about their top-up and those who are not, each with their previous and
  new token balance;
- the total of the top-ups the company gives.

Companies are taken in ascending id order. A company without an id sorts
last and is skipped.

This project models that report in Dafny:

- `wrappers.dfy`: `Option`.
- `records.dfy`: company and user records, and the `safe_get` helper.
  - Every JSON field is an `Option`, where `None` stands for a missing key
    or a JSON `null`.
  - `SafeGet` reads a number or string field. Such a value is never falsy
    in Ruby.
  - `SafeGetFlag` reads a boolean field. A stored `false` also falls back to
    the default.
- `sorting.dfy`: `sort_by` as an insertion sort under a comparison of the
  sort keys. It also defines Ruby's string order, compared character by
  character.
- `decimal.dfy`: the decimal text of an integer, as string interpolation
  writes it, and the parser that reads it back.
- `report.dfy`: the report itself.
  - Each `file.puts` call is one `Line`.
  - The specification functions are `Select`, `Group`, `Section`, `Sections`
    and `Report`.
  - The loops of the script are the methods `SplitUsers` (the per-user
    loop), `EmitCompany` (the body of the per-company loop) and
    `BuildReport` (the loop over the sorted companies). Each is proved equal
    to its specification function.
  - `Render` gives the string each `puts` is given. `Puts` adds the newline
    that Ruby's `IO#puts` adds: one, unless the string already ends in one.
    `Text` is the whole file.
- `report_properties.dfy`: what the report promises, proved about the
  specification functions. This covers:
  - which users are listed, and under which header;
  - the company order;
  - skipped companies;
  - the totals;
  - the line structure of the text;
  - a worked example.

Ruby's `sort_by` does not guarantee stability, so the model claims only
that each sort's result is sorted and a permutation of its input.

## Model

| member | source | states |
|---|---|---|
| Records.SafeGet | challenge.rb:4-6 | A present (non-falsy) field is returned as stored; a missing one yields the default. |
| Records.SafeGetFlag | challenge.rb:4-6 | A boolean field stored as `true` reads as true; `false` or missing yields the default. |
| Records.FlagWithFalseDefault | challenge.rb:29 | A status read with default `false` holds exactly when `true` is stored. |
| Sorting.SortBy | challenge.rb:25 | Sorting returns a permutation of its input (same multiset, same length). |
| Sorting.SortBySorted | challenge.rb:25 | Under a total preorder on the keys, the sorted sequence is ordered for every pair of positions. |
| Sorting.StringLeTotalPreorder | challenge.rb:44 | Ruby's string comparison is total and transitive, so last names can be sorted. |
| ReportBuilder.CompanyLeTotalPreorder | challenge.rb:25 | The id order with a missing id as infinity is total and transitive. |
| ReportBuilder.SortCompanies | challenge.rb:25 | The sorted companies are a permutation of the input companies. |
| ReportBuilder.SortCompaniesOrdered | challenge.rb:25 | The companies come in ascending id order, with every company lacking an id after all that have one. |
| ReportBuilder.Select | challenge.rb:43 | A user is selected exactly when it is in the input with the company's id and an active status, and it is kept as many times as it occurs in the input. |
| ReportBuilder.Selected | challenge.rb:43-44 | The company's listed users are a permutation of its selected users. |
| ReportBuilder.SelectedOrdered | challenge.rb:44 | The listed users are in ascending order of last name, a missing one counting as empty. |
| ReportBuilder.GroupMembers | challenge.rb:54-58 | A user is in the emailed group exactly when both the user's and the company's email status are true; the other group holds the rest. |
| ReportBuilder.Render | challenge.rb:34-77 | Every `puts` is given some text; only the blank separator is given exactly a newline. |
| ReportBuilder.Puts | challenge.rb:34-77 | `puts` writes its string followed by at most one added newline, so the output ends in a newline; the string is written unchanged exactly when it already ends in one. |
| ReportBuilder.SplitUsers | challenge.rb:46-62 | The user loop builds exactly the emailed and not-emailed blocks in listing order, and its total is the top-up times the number of users. |
| ReportBuilder.EmitCompany | challenge.rb:26-77 | The body of the company loop writes exactly the company's section, and nothing for a company without an id. |
| ReportBuilder.BuildReport | challenge.rb:25-78 | The whole loop writes exactly the sections of the companies in sorted order. |
| ReportProperties.InSelected | challenge.rb:43-44 | A user is listed under a company exactly when it belongs to that company and is active. |
| ReportProperties.GroupPartition | challenge.rb:54-58 | Every listed user lands in exactly one of the two groups. |
| ReportProperties.GroupSorted | challenge.rb:54-58 | Splitting into groups keeps the last-name order. |
| ReportProperties.GroupsOfCompany | challenge.rb:43-58 | The two groups partition the company's active users, hold exactly the (not) emailed ones, and are each in last-name order. |
| ReportProperties.SectionListsActiveUsers | challenge.rb:43-57 | Every user block in a section belongs to an active user of that company and vice versa; each new balance is the previous balance plus the company's top-up. |
| ReportProperties.SectionGroupHeaders | challenge.rb:65-73 | "Users Emailed:" appears exactly when the company has an active emailed user; "Users Not Emailed:" exactly when it has an active user who is not emailed. |
| ReportProperties.SectionFrame | challenge.rb:34-77 | A section opens with the id and name lines and closes with the total (top-up times active users) and a blank line. |
| ReportProperties.SectionWithoutUsers | challenge.rb:34-77 | A company without active users gets only its id, name, a total of 0 and a blank line. |
| ReportProperties.HeaderIdsOfSections | challenge.rb:25-34 | The company-id lines of the output are the ids of the companies that have one, in processing order. |
| ReportProperties.PresentIdsSorted | challenge.rb:25 | The ids of companies sorted by id are non-decreasing. |
| ReportProperties.PresentIdsPermutation | challenge.rb:25 | Reordering the companies only reorders their ids. |
| ReportProperties.ReportCompanyOrder | challenge.rb:25-34 | The report's company ids are non-decreasing and are exactly the ids present in the input, with multiplicity. |
| ReportProperties.ReportListsActiveUsers | challenge.rb:25-57 | A user block appears in the report exactly for each active user paired with a company of the same id. |
| ReportProperties.CompanyWithoutIdIgnored | challenge.rb:25-32 | Adding a company without an id does not change the report. |
| ReportProperties.PutsLineBreaks | challenge.rb:55-57 | For field values without line breaks, the `puts` of a user's block writes three lines, and every other `puts` writes one, the blank separator included. |
| ReportProperties.TextLineCount | challenge.rb:34-77 | For field values without line breaks, the file has one line per `puts` plus two per user block. |
| ReportProperties.TextAppend | challenge.rb:34-77 | The file's text is the text of the first lines followed by the text of the rest. |
| ReportProperties.TextEnding | challenge.rb:34-77 | The file is empty exactly when nothing is written, and otherwise ends in a newline. |
| ReportProperties.PutsIdempotent | challenge.rb:77 | `puts` leaves a string that already ends in a newline unchanged, so a second newline is never added. |
| ReportProperties.NameEndingInNewline | challenge.rb:35 | A company name ending in a newline is written with that one newline only. |
| Decimal.IntToStringRoundTrip | challenge.rb:55-57 | The decimal text of a balance is digits with an optional leading minus and reads back to the same integer. |
| ReportProperties.WorkedExample | challenge.rb:25-77 | For two companies given out of order, the report lists the lower id first, shows the missing top-up as 0 and emails only when both statuses are true. |

## Left out

- File access and JSON decoding (challenge.rb:9-20, 23): the model starts
  from decoded records and ends with the lines and their text. The error
  messages for a missing file or malformed JSON, and the final console
  message (challenge.rb:81), are left out.
- Dynamic typing: fields hold typed values. Integer ids, top-ups and token
  counts are `int`; names and emails are strings; statuses are booleans.
  The following are not modelled:
  - floating-point values, including `Float::INFINITY`, which is replaced
    by "a missing id sorts last";
  - Ruby's `==` between values of different types (an id `"1"` against
    `1`);
  - a `false` stored in a non-boolean field.
- The difference between an absent key and a JSON `null`: both are `None`,
  and `safe_get` treats them alike.
- Ruby integers are unbounded, like Dafny's `int`, so no overflow is
  modelled.
- SortCompanies: states only sortedness and permutation. `sort_by` does
  not fix the order of equal keys, so the order among companies with equal
  or missing ids is not claimed.
- Selected: states only sortedness and permutation. The order among users
  with the same last name is not claimed, for the same reason.
- CompanyWithoutIdIgnored: the equality relies on the model's order among
  companies with the same id. `sort_by` does not fix that order, so when ids
  repeat, adding a company without an id may reorder the sections of those
  companies in the program's output.
- Text: gives the characters written, but the writing of `output.txt`
  itself is not modelled.
