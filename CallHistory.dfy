/** The call-history page (frontend/src/pages/CallHistory.js): the search and
    status filter over the loaded calls, the status styling, and the message
    shown when no call is listed. Fetching the calls is not part of this
    model; the list is a parameter. */
module CallHistory {
  import opened Common
  import opened Text

  datatype Call = Call(id: nat, phoneNumber: string, campaignName: string, status: string)

  /** The lower-cased search term occurs in the lower-cased phone number or
      campaign name. */
  predicate MatchesSearch(call: Call, searchTerm: string)
  {
    Contains(ToLower(call.phoneNumber), ToLower(searchTerm))
    || Contains(ToLower(call.campaignName), ToLower(searchTerm))
  }

  predicate MatchesStatus(call: Call, statusFilter: string)
  {
    statusFilter == "all" || call.status == statusFilter
  }

  /** The predicate of `calls.filter`. */
  predicate Shown(call: Call, searchTerm: string, statusFilter: string)
  {
    MatchesSearch(call, searchTerm) && MatchesStatus(call, statusFilter)
  }

  /** `filteredCalls`: the shown calls, in their original order. */
  function FilteredCalls(calls: seq<Call>, searchTerm: string, statusFilter: string): (r: seq<Call>)
    ensures IsSubsequence(r, calls)
    ensures forall i :: 0 <= i < |r| ==> Shown(r[i], searchTerm, statusFilter)
  {
    if calls == [] then []
    else if Shown(calls[0], searchTerm, statusFilter) then [calls[0]] + FilteredCalls(calls[1..], searchTerm, statusFilter)
    else FilteredCalls(calls[1..], searchTerm, statusFilter)
  }

  /** A call is listed exactly when it is loaded and matches both the search
      term and the status filter, and as many times as it is loaded. */
  lemma {:induction false} FilteredCallsMembers(calls: seq<Call>, searchTerm: string, statusFilter: string)
    ensures forall c :: c in FilteredCalls(calls, searchTerm, statusFilter) <==> c in calls && Shown(c, searchTerm, statusFilter)
    ensures forall c :: multiset(FilteredCalls(calls, searchTerm, statusFilter))[c]
                        == if Shown(c, searchTerm, statusFilter) then multiset(calls)[c] else 0
  {
    if calls != [] {
      FilteredCallsMembers(calls[1..], searchTerm, statusFilter);
      var head := if Shown(calls[0], searchTerm, statusFilter) then [calls[0]] else [];
      assert FilteredCalls(calls, searchTerm, statusFilter) == head + FilteredCalls(calls[1..], searchTerm, statusFilter);
      assert calls == [calls[0]] + calls[1..];
      assert multiset(FilteredCalls(calls, searchTerm, statusFilter)) == multiset(head) + multiset(FilteredCalls(calls[1..], searchTerm, statusFilter));
      assert multiset(calls) == multiset([calls[0]]) + multiset(calls[1..]);
      forall c ensures c in FilteredCalls(calls, searchTerm, statusFilter) <==> c in calls && Shown(c, searchTerm, statusFilter) {
        assert c in calls <==> c == calls[0] || c in calls[1..];
      }
    }
  }

  /** With an empty search term and the filter on 'all', every call is listed. */
  lemma {:induction false} NoFilterShowsAll(calls: seq<Call>)
    ensures FilteredCalls(calls, "", "all") == calls
  {
    if calls != [] {
      NoFilterShowsAll(calls[1..]);
      assert ToLower("") == "";
      ContainsEmpty(ToLower(calls[0].phoneNumber));
      assert Shown(calls[0], "", "all");
    }
  }

  /** The colour classes of `getStatusColor`. */
  function StatusColor(status: string): string
  {
    match status
    case "completed" => "text-success-600 bg-success-50"
    case "failed" => "text-error-600 bg-error-50"
    case "pending" => "text-warning-600 bg-warning-50"
    case "initiated" => "text-warning-600 bg-warning-50"
    case _ => "text-gray-600 bg-gray-50"
  }

  datatype Icon = CheckCircle | XCircle | AlertCircle | Clock

  /** The icon of `getStatusIcon`. */
  function StatusIcon(status: string): Icon
  {
    match status
    case "completed" => CheckCircle
    case "failed" => XCircle
    case "pending" => AlertCircle
    case "initiated" => AlertCircle
    case _ => Clock
  }

  /** 'pending' and 'initiated' share the warning style; any status outside
      the four known ones gets the gray default; and the two switches agree:
      two statuses share a colour exactly when they share an icon. */
  lemma StatusStyles(status: string, other: string)
    ensures StatusColor("pending") == StatusColor("initiated") && StatusIcon("pending") == StatusIcon("initiated")
    ensures status !in {"completed", "failed", "pending", "initiated"} ==>
      StatusColor(status) == "text-gray-600 bg-gray-50" && StatusIcon(status) == Clock
    ensures StatusColor(status) == StatusColor(other) <==> StatusIcon(status) == StatusIcon(other)
  {
  }

  const NoCallsHint: string := "Start making calls to see them here"
  const AdjustFilterHint: string := "Try adjusting your search or filter criteria"

  /** The hint under "No calls found", shown when nothing is listed. */
  function EmptyStateHint(calls: seq<Call>, searchTerm: string, statusFilter: string): Option<string>
  {
    if FilteredCalls(calls, searchTerm, statusFilter) == [] then
      Some(if calls == [] then NoCallsHint else AdjustFilterHint)
    else None
  }

  /** With no calls loaded the hint asks for calls, whatever the filter; with
      calls loaded it asks to adjust the filter, and only when the filter hides
      them all; with no filter nothing is hidden. */
  lemma EmptyStateHintSpec(calls: seq<Call>, searchTerm: string, statusFilter: string)
    ensures calls == [] ==> EmptyStateHint(calls, searchTerm, statusFilter) == Some(NoCallsHint)
    ensures calls != [] ==>
      (EmptyStateHint(calls, searchTerm, statusFilter) == Some(AdjustFilterHint) <==>
       forall i :: 0 <= i < |calls| ==> !Shown(calls[i], searchTerm, statusFilter))
    ensures calls != [] ==> EmptyStateHint(calls, searchTerm, statusFilter) != Some(NoCallsHint)
    ensures calls != [] ==> EmptyStateHint(calls, "", "all").None?
  {
    FilteredCallsMembers(calls, searchTerm, statusFilter);
    NoFilterShowsAll(calls);
    var r := FilteredCalls(calls, searchTerm, statusFilter);
    if r != [] {
      assert r[0] in r;
    } else {
      forall i | 0 <= i < |calls| ensures !Shown(calls[i], searchTerm, statusFilter) {
        assert calls[i] in calls;
      }
    }
  }
}
