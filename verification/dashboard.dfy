/** The admin dashboard's data handling: the name and gender filters, the sort by
    number of messages, pagination two users to a page, the Previous/Next
    buttons, the CSV export text and the delete and edit-field state updates. */
module Dashboard {
  import opened Wrappers
  import opened JsString
  import opened JsArray
  import opened ApiTypes

  const UsersPerPage := 2
  const Ascending := "ascending"

  // ---------------------------------------------------------------------------
  // Filtering

  /** The filter callback: the lower-cased name contains the lower-cased search
      term, and the gender filter is empty or equals the user's gender. */
  predicate MatchesFilters(user: UserView, searchTerm: string, genderFilter: string) {
    Includes(ToLower(user.name), ToLower(searchTerm)) && (genderFilter == "" || user.gender == genderFilter)
  }

  /** `filteredUsers`. */
  function FilterUsers(users: seq<UserView>, searchTerm: string, genderFilter: string): (r: seq<UserView>)
    ensures forall u :: u in r <==> u in users && MatchesFilters(u, searchTerm, genderFilter)
  {
    Filter(users, u => MatchesFilters(u, searchTerm, genderFilter))
  }

  /** With an empty search term and no gender filter every user is listed, in order. */
  lemma EmptyFiltersKeepEveryone(users: seq<UserView>)
    ensures FilterUsers(users, "", "") == users
  {
    forall k | 0 <= k < |users|
      ensures MatchesFilters(users[k], "", "")
    {
      IncludesEmpty(ToLower(users[k].name));
    }
    FilterAll(users, u => MatchesFilters(u, "", ""));
  }

  /** The search ignores the letter case of both the name and the term. */
  lemma SearchIgnoresCase(user: UserView, term1: string, term2: string, genderFilter: string)
    requires ToLower(term1) == ToLower(term2)
    ensures MatchesFilters(user, term1, genderFilter) <==> MatchesFilters(user, term2, genderFilter)
  {
  }

  // ---------------------------------------------------------------------------
  // Sorting

  /** The sort key: the comparator `a - b` on message counts for "ascending",
      `b - a` for any other order, which is `a - b` on the negated counts. */
  function SortKey(user: UserView, sortOrder: string): int {
    if sortOrder == Ascending then |user.messages| else -|user.messages|
  }

  predicate SortedByKey(s: seq<UserView>, sortOrder: string) {
    forall k, l :: 0 <= k < l < |s| ==> SortKey(s[k], sortOrder) <= SortKey(s[l], sortOrder)
  }

  /** Sorted by key means ascending message counts for "ascending" and descending
      counts for every other order. */
  lemma SortedMeansOrderedCounts(s: seq<UserView>, sortOrder: string, k: nat, l: nat)
    requires SortedByKey(s, sortOrder) && k < l < |s|
    ensures sortOrder == Ascending ==> |s[k].messages| <= |s[l].messages|
    ensures sortOrder != Ascending ==> |s[k].messages| >= |s[l].messages|
  {
    assert SortKey(s[k], sortOrder) <= SortKey(s[l], sortOrder);
  }

  /** `filteredUsers.sort(...)`, in place: an insertion sort on the comparator's key. */
  method SortUsers(a: array<UserView>, sortOrder: string)
    modifies a
    ensures SortedByKey(a[..], sortOrder)
    ensures multiset(a[..]) == multiset(old(a[..]))
  {
    var i := 0;
    while i < a.Length
      invariant 0 <= i <= a.Length
      invariant SortedByKey(a[..i], sortOrder)
      invariant multiset(a[..]) == multiset(old(a[..]))
    {
      InsertAt(a, i, sortOrder);
      i := i + 1;
    }
    assert a[..a.Length] == a[..];
  }

  /** While `a[j]` moves left within `s[..i + 1]`: the other elements are in
      order, and `s[j]` is below everything to its right. */
  predicate Inserting(s: seq<UserView>, i: nat, j: nat, sortOrder: string)
    requires j <= i < |s|
  {
    && (forall k, l :: 0 <= k < l <= i && k != j && l != j ==> SortKey(s[k], sortOrder) <= SortKey(s[l], sortOrder))
    && (forall l :: j < l <= i ==> SortKey(s[j], sortOrder) < SortKey(s[l], sortOrder))
  }

  lemma InsertingStart(s: seq<UserView>, i: nat, sortOrder: string)
    requires i < |s| && SortedByKey(s[..i], sortOrder)
    ensures Inserting(s, i, i, sortOrder)
  {
    forall k, l | 0 <= k < l <= i && k != i && l != i
      ensures SortKey(s[k], sortOrder) <= SortKey(s[l], sortOrder)
    {
      assert s[k] == s[..i][k] && s[l] == s[..i][l];
    }
  }

  /** Swapping `s[j]` with a larger left neighbour keeps the insertion state. */
  lemma InsertingSwap(s: seq<UserView>, i: nat, j: nat, sortOrder: string)
    requires 0 < j <= i < |s| && Inserting(s, i, j, sortOrder)
    requires SortKey(s[j - 1], sortOrder) > SortKey(s[j], sortOrder)
    ensures Inserting(s[j - 1 := s[j]][j := s[j - 1]], i, j - 1, sortOrder)
    ensures multiset(s[j - 1 := s[j]][j := s[j - 1]]) == multiset(s)
  {
  }

  lemma InsertingDone(s: seq<UserView>, i: nat, j: nat, sortOrder: string)
    requires j <= i < |s| && Inserting(s, i, j, sortOrder)
    requires j == 0 || SortKey(s[j - 1], sortOrder) <= SortKey(s[j], sortOrder)
    ensures SortedByKey(s[..i + 1], sortOrder)
  {
    forall k, l | 0 <= k < l <= i
      ensures SortKey(s[k], sortOrder) <= SortKey(s[l], sortOrder)
    {
      if l == j && k < j - 1 {
        assert SortKey(s[k], sortOrder) <= SortKey(s[j - 1], sortOrder);
      }
    }
  }

  /** One insertion step: `a[i]` moves left past every element with a larger key,
      so `a[..i + 1]` becomes sorted. */
  method InsertAt(a: array<UserView>, i: nat, sortOrder: string)
    requires i < a.Length && SortedByKey(a[..i], sortOrder)
    modifies a
    ensures SortedByKey(a[..i + 1], sortOrder)
    ensures multiset(a[..]) == multiset(old(a[..]))
  {
    InsertingStart(a[..], i, sortOrder);
    var j := i;
    while j > 0 && SortKey(a[j - 1], sortOrder) > SortKey(a[j], sortOrder)
      invariant 0 <= j <= i
      invariant Inserting(a[..], i, j, sortOrder)
      invariant multiset(a[..]) == multiset(old(a[..]))
    {
      ghost var s := a[..];
      InsertingSwap(s, i, j, sortOrder);
      a[j - 1], a[j] := a[j], a[j - 1];
      assert a[..] == s[j - 1 := s[j]][j := s[j - 1]];
      j := j - 1;
    }
    InsertingDone(a[..], i, j, sortOrder);
  }

  // ---------------------------------------------------------------------------
  // Pagination

  /** `currentUsers`: the slice `[(page - 1) * 2, page * 2)` of the sorted list. */
  function CurrentUsers(sorted: seq<UserView>, page: int): seq<UserView> {
    Slice(sorted, (page - 1) * UsersPerPage, page * UsersPerPage)
  }

  /** `Math.ceil(n / 2)`. */
  function TotalPages(n: nat): (t: nat)
    ensures n == 0 <==> t == 0
    ensures n > 0 ==> (t - 1) * UsersPerPage < n <= t * UsersPerPage
  {
    (n + 1) / 2
  }

  /** A page never holds more than two users, whatever the page number. */
  lemma PageHoldsAtMostTwo(sorted: seq<UserView>, page: int)
    ensures |CurrentUsers(sorted, page)| <= UsersPerPage
  {
    var n := |sorted|;
    var from, to := RelativeIndex((page - 1) * 2, n), RelativeIndex(page * 2, n);
    if page >= 1 {
      assert to <= from + 2;
    } else if page <= -1 {
      assert to <= from + 2;
    }
  }

  /** Page `page` (from 1) is the run of the sorted list starting at `(page - 1) * 2`. */
  lemma PageContents(sorted: seq<UserView>, page: int)
    requires page >= 1 && (page - 1) * 2 <= |sorted|
    ensures var end := if page * 2 <= |sorted| then page * 2 else |sorted|;
            CurrentUsers(sorted, page) == sorted[(page - 1) * 2..end]
  {
  }

  /** The first `k` pages one after the other. */
  function PagesUpTo(sorted: seq<UserView>, k: nat): seq<UserView> {
    if k == 0 then [] else PagesUpTo(sorted, k - 1) + CurrentUsers(sorted, k)
  }

  lemma {:induction false} PagesUpToPrefix(sorted: seq<UserView>, k: nat)
    ensures var end := if 2 * k <= |sorted| then 2 * k else |sorted|;
            PagesUpTo(sorted, k) == sorted[..end]
  {
    if k > 0 {
      PagesUpToPrefix(sorted, k - 1);
      var prev := if 2 * (k - 1) <= |sorted| then 2 * (k - 1) else |sorted|;
      var end := if 2 * k <= |sorted| then 2 * k else |sorted|;
      if 2 * (k - 1) <= |sorted| {
        PageContents(sorted, k);
        assert sorted[..prev] + sorted[prev..end] == sorted[..end];
      } else {
        assert CurrentUsers(sorted, k) == [];
      }
    }
  }

  /** Pages 1 to `totalPages`, one after the other, are the whole sorted list:
      every user is shown on exactly one page, in sorted order. */
  lemma PagesPartitionList(sorted: seq<UserView>)
    ensures PagesUpTo(sorted, TotalPages(|sorted|)) == sorted
  {
    PagesUpToPrefix(sorted, TotalPages(|sorted|));
    assert sorted[..|sorted|] == sorted;
  }

  /** The user at index `i` is on page `i / 2 + 1`, which lies in `1..totalPages`,
      and on no other page from 1 on. */
  lemma PageOfUser(sorted: seq<UserView>, i: nat)
    requires i < |sorted|
    ensures var p := i / 2 + 1;
            && 1 <= p <= TotalPages(|sorted|)
            && i % 2 < |CurrentUsers(sorted, p)| && CurrentUsers(sorted, p)[i % 2] == sorted[i]
            && forall q :: q >= 1 ==> ((q - 1) * 2 <= i < q * 2 <==> q == p)
  {
    var p := i / 2 + 1;
    PageContents(sorted, p);
    forall q | q >= 1
      ensures (q - 1) * 2 <= i < q * 2 <==> q == p
    {
      if q < p {
        assert q * 2 <= (p - 1) * 2 <= i;
      } else if q > p {
        assert (q - 1) * 2 >= p * 2 > i;
      }
    }
  }

  /** The Previous button: `Math.max(prev - 1, 1)`. */
  function PrevPage(page: int): (r: int)
    ensures r >= 1
    ensures page > 1 ==> r == page - 1
  {
    if page - 1 > 1 then page - 1 else 1
  }

  /** The Next button: `Math.min(prev + 1, totalPages)`. */
  function NextPage(page: int, totalPages: nat): (r: int)
    ensures r <= totalPages
    ensures page < totalPages ==> r == page + 1
  {
    if page + 1 < totalPages then page + 1 else totalPages
  }

  /** From a page in range the buttons stay in range. */
  lemma ButtonsStayInRange(page: int, totalPages: nat)
    requires 1 <= page <= totalPages
    ensures 1 <= PrevPage(page) <= totalPages
    ensures 1 <= NextPage(page, totalPages) <= totalPages
  {
  }

  /** With no users Next is enabled on page 1 (it is disabled only on page
      `totalPages`, here 0) and moves to page 0, whose slice is empty. */
  lemma NextOnEmptyList(page: int)
    requires page == 1
    ensures NextPage(page, TotalPages(0)) == 0
    ensures CurrentUsers([], NextPage(page, TotalPages(0))) == []
    ensures PrevPage(NextPage(page, TotalPages(0))) == 1
  {
  }

  // ---------------------------------------------------------------------------
  // CSV export

  const CsvHeaderFields := ["User Name", "User Email", "Gender", "Number of Messages"]

  /** One user as a CSV line: name, e-mail, gender and message count, joined by
      commas, with no quoting. */
  function CsvLine(user: UserView): string {
    Join([user.name, user.email, user.gender, DecimalString(|user.messages|)], ",")
  }

  function CsvLines(users: seq<UserView>): (r: seq<string>)
    ensures |r| == |users|
    ensures forall i :: 0 <= i < |users| ==> r[i] == CsvLine(users[i])
  {
    seq(|users|, i requires 0 <= i < |users| => CsvLine(users[i]))
  }

  /** `convertToCSV`: the header line, then one line per user, joined by newlines. */
  function ConvertToCsv(users: seq<UserView>): string {
    Join([Join(CsvHeaderFields, ",")] + CsvLines(users), "\n")
  }

  /** A field without line breaks. */
  predicate SingleLine(s: string) {
    '\n' !in s
  }

  lemma DecimalStringHasNo(n: int, c: char)
    requires !IsDigit(c) && c != '-'
    ensures c !in DecimalString(n)
  {
    var d := DecimalString(n);
    assert forall k :: 0 <= k < |d| ==> d[k] != c;
  }

  lemma HeaderIsOneLine()
    ensures '\n' !in Join(CsvHeaderFields, ",")
  {
    forall k | 0 <= k < |CsvHeaderFields|
      ensures '\n' !in CsvHeaderFields[k]
    {
    }
    JoinExcludes(CsvHeaderFields, ",", '\n');
  }

  lemma CsvLineIsOneLine(u: UserView)
    requires SingleLine(u.name) && SingleLine(u.email) && SingleLine(u.gender)
    ensures '\n' !in CsvLine(u)
  {
    DecimalStringHasNo(|u.messages|, '\n');
    var fields := [u.name, u.email, u.gender, DecimalString(|u.messages|)];
    assert forall j :: 0 <= j < |fields| ==> '\n' !in fields[j];
    JoinExcludes(fields, ",", '\n');
  }

  /** The export has exactly `1 + n` lines: the header, then each user's line in
      order, as long as no name, e-mail or gender holds a line break. */
  lemma CsvHasHeaderAndOneLinePerUser(users: seq<UserView>)
    requires forall u :: u in users ==> SingleLine(u.name) && SingleLine(u.email) && SingleLine(u.gender)
    ensures Split(ConvertToCsv(users), '\n') == [Join(CsvHeaderFields, ",")] + CsvLines(users)
    ensures |Split(ConvertToCsv(users), '\n')| == 1 + |users|
  {
    var lines := [Join(CsvHeaderFields, ",")] + CsvLines(users);
    HeaderIsOneLine();
    forall k | 0 <= k < |lines|
      ensures '\n' !in lines[k]
    {
      if k > 0 {
        assert users[k - 1] in users;
        CsvLineIsOneLine(users[k - 1]);
      }
    }
    SplitJoin(lines, '\n');
  }

  /** A user line splits back into its four fields when no field holds a comma. */
  lemma CsvLineFields(user: UserView)
    requires ',' !in user.name && ',' !in user.email && ',' !in user.gender
    ensures Split(CsvLine(user), ',') == [user.name, user.email, user.gender, DecimalString(|user.messages|)]
  {
    var fields := [user.name, user.email, user.gender, DecimalString(|user.messages|)];
    DecimalStringHasNo(|user.messages|, ',');
    assert forall j :: 0 <= j < |fields| ==> ',' !in fields[j];
    SplitJoin(fields, ',');
  }

  // ---------------------------------------------------------------------------
  // Delete

  /** `users.filter((user) => user._id !== userId)`. */
  function RemoveUser(users: seq<UserView>, userId: string): (r: seq<UserView>)
    ensures forall u :: u in r <==> u in users && u.id != userId
  {
    Filter(users, (u: UserView) => u.id != userId)
  }

  /** Deleting removes exactly the users with that id: the others keep their
      relative order (removal distributes over concatenation) and a list without
      that id is left as it is. */
  lemma RemoveUserKeepsOthersInOrder(a: seq<UserView>, b: seq<UserView>, userId: string)
    ensures RemoveUser(a + b, userId) == RemoveUser(a, userId) + RemoveUser(b, userId)
    ensures (forall k :: 0 <= k < |a| ==> a[k].id != userId) ==> RemoveUser(a, userId) == a
  {
    FilterConcat(a, b, (u: UserView) => u.id != userId);
    if forall k :: 0 <= k < |a| ==> a[k].id != userId {
      FilterAll(a, (u: UserView) => u.id != userId);
    }
  }

  // ---------------------------------------------------------------------------
  // The component state

  /** The dashboard's state variables. */
  /** The edit form's initial and reset value. */
  const EmptyEditForm: map<string, string> := map["name" := "", "email" := ""]

  /** The users endpoint, and how a template literal prints `null`. */
  const UsersPath := "/users/"
  const NullText := "null"

  class DashboardState {
    var users: seq<UserView>
    var searchTerm: string
    var sortOrder: string
    var genderFilter: string
    var editUserId: Option<string>
    var editUserData: map<string, string>
    var currentPage: int

    /** The initial state of every `useState`. */
    constructor ()
      ensures users == [] && searchTerm == "" && sortOrder == Ascending && genderFilter == ""
      ensures editUserId == None && editUserData == EmptyEditForm && currentPage == 1
    {
      users, searchTerm, sortOrder, genderFilter := [], "", Ascending, "";
      editUserId := None;
      editUserData := EmptyEditForm;
      currentPage := 1;
    }

    /** The filtered users, before sorting. */
    function Visible(): seq<UserView>
      reads this
    {
      FilterUsers(users, searchTerm, genderFilter)
    }

    /** One render's list: filter, copy into an array, sort it in place and cut out
        the current page. */
    method Render() returns (sorted: seq<UserView>, page: seq<UserView>, totalPages: nat)
      ensures multiset(sorted) == multiset(Visible()) && SortedByKey(sorted, sortOrder)
      ensures page == CurrentUsers(sorted, currentPage) && |page| <= UsersPerPage
      ensures totalPages == TotalPages(|Visible()|)
    {
      var filtered := FilterUsers(users, searchTerm, genderFilter);
      var a := new UserView[|filtered|](i requires 0 <= i < |filtered| => filtered[i]);
      assert a[..] == filtered;
      SortUsers(a, sortOrder);
      sorted := a[..];
      assert |sorted| == |multiset(sorted)| == |multiset(filtered)| == |filtered|;
      page := CurrentUsers(sorted, currentPage);
      PageHoldsAtMostTwo(sorted, currentPage);
      totalPages := TotalPages(|sorted|);
    }

    /** `handleDelete`: once the API call succeeds, drop the users with that id. */
    method HandleDelete(userId: string, apiOk: bool)
      modifies this`users
      ensures users == if apiOk then RemoveUser(old(users), userId) else old(users)
    {
      if apiOk {
        users := RemoveUser(users, userId);
      }
    }

    /** `handleEditChange`: set the named field of the edit form. */
    method HandleEditChange(name: string, value: string)
      modifies this`editUserData
      ensures editUserData == old(editUserData)[name := value]
      ensures forall k :: k in old(editUserData) && k != name ==> editUserData[k] == old(editUserData)[k]
    {
      editUserData := editUserData[name := value];
    }

    /** The edit popup is shown while `editUserId` is truthy: set, and not the
        empty string. */
    function EditPopupOpen(): (open: bool)
      reads this
      ensures open <==> exists id :: editUserId == Some(id) && id != ""
    {
      editUserId.Some? && editUserId.value != ""
    }

    /** The Edit button of a row: remember the user's id and fill the form with
        the user's name and e-mail. */
    method HandleEdit(user: UserView)
      modifies this`editUserId, this`editUserData
      ensures editUserId == Some(user.id)
      ensures editUserData == map["name" := user.name, "email" := user.email]
      ensures user.id != "" ==> EditPopupOpen()
    {
      editUserId := Some(user.id);
      editUserData := map["name" := user.name, "email" := user.email];
    }

    /** The Cancel button of the popup: clear the id and keep the form as it is. */
    method CancelEdit()
      modifies this`editUserId
      ensures editUserId == None && !EditPopupOpen()
    {
      editUserId := None;
    }

    /** `handleUpdate`: the PUT goes to `/users/<editUserId>` (`null` when no user is
        being edited) with the form as its body; once it succeeds the popup closes
        and the form is reset, otherwise nothing changes. */
    method HandleUpdate(apiOk: bool) returns (path: string, body: map<string, string>)
      modifies this`editUserId, this`editUserData
      ensures path == UsersPath + (if old(editUserId).Some? then old(editUserId).value else NullText)
      ensures body == old(editUserData)
      ensures apiOk ==> editUserId == None && editUserData == EmptyEditForm && !EditPopupOpen()
      ensures !apiOk ==> editUserId == old(editUserId) && editUserData == old(editUserData)
    {
      path := UsersPath + (if editUserId.Some? then editUserId.value else NullText);
      body := editUserData;
      if apiOk {
        editUserId := None;
        editUserData := EmptyEditForm;
      }
    }

    /** The Previous button. */
    method Previous()
      modifies this`currentPage
      ensures currentPage == PrevPage(old(currentPage))
    {
      currentPage := if currentPage - 1 > 1 then currentPage - 1 else 1;
    }

    /** The Next button. */
    method Next()
      modifies this`currentPage
      ensures currentPage == NextPage(old(currentPage), TotalPages(|Visible()|))
    {
      var total := TotalPages(|FilterUsers(users, searchTerm, genderFilter)|);
      currentPage := if currentPage + 1 < total then currentPage + 1 else total;
    }
  }
}
