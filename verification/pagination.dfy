/** The partner-API fetch of the daily importer (fetch_data_from_api):
    log in, then request report pages of 100 candidates until a page says
    there is no more, and build a DataFrame from everything received. */
module Pagination {
  import opened Base
  import opened Frames

  /** The `limit` request parameter, and the size of a full page. */
  const PageSize: nat := 100

  /** The fields of the login reply the job reads: data.accessToken,
      data.id and data.userType, Null where the reply lacks them. */
  datatype Login = Login(accessToken: Value, id: Value, userType: Value)

  /** One reply of the report endpoint: its `data` list ([] when absent)
      and its `getCount` (0 when absent). */
  datatype Page = Page(data: seq<Record>, getCount: int)

  /** The login succeeded only if token, buyer id and user type are all truthy. */
  predicate LoginComplete(l: Login)
  {
    Truthy(l.accessToken) && Truthy(l.id) && Truthy(l.userType)
  }

  /** After page pageNo the loop requests another page. */
  predicate Continues(p: Page, pageNo: int)
  {
    !(|p.data| < PageSize || pageNo * PageSize >= p.getCount)
  }

  /** The reply to the request for page pageNo is replies[pageNo - 1]; None is
      a request that raised (network error, error status, unreadable body). A
      request past the end of `replies` raises as well. */
  function Reply(replies: seq<Option<Page>>, pageNo: nat): Option<Page>
  {
    if 1 <= pageNo <= |replies| then replies[pageNo - 1] else None
  }

  /** `xs` put in front of an accumulation that may have failed. */
  function Prefixed(xs: seq<Record>, rest: Option<seq<Record>>): Option<seq<Record>>
  {
    match rest
    case None => None
    case Some(ys) => Some(xs + ys)
  }

  /** What the loop gathers from page pageNo on; None when a request raises. */
  function Accumulate(replies: seq<Option<Page>>, pageNo: nat): Option<seq<Record>>
    decreases |replies| + 1 - pageNo
  {
    match Reply(replies, pageNo)
    case None => None
    case Some(p) =>
      if Continues(p, pageNo) then Prefixed(p.data, Accumulate(replies, pageNo + 1))
      else Some(p.data)
  }

  /** Pages from..last all arrived, the loop went on after each of them but
      the last, and the last ended it. */
  ghost predicate StopsAt(replies: seq<Option<Page>>, from: nat, last: nat)
  {
    && from <= last
    && (forall k :: from <= k <= last ==> Reply(replies, k).Some?)
    && (forall k :: from <= k < last ==> Continues(Reply(replies, k).value, k))
    && !Continues(Reply(replies, last).value, last)
  }

  /** The `data` lists of pages from..last, in page order. */
  function DataOf(replies: seq<Option<Page>>, from: nat, last: nat): seq<Record>
    requires forall k :: from <= k <= last ==> Reply(replies, k).Some?
    decreases last - from
  {
    if last < from then []
    else Reply(replies, from).value.data + DataOf(replies, from + 1, last)
  }

  /** The loop stops exactly at the first page that is short or reaches
      getCount, and what it gathered is every page's data up to that one. */
  lemma {:induction false} StopRule(replies: seq<Option<Page>>, from: nat, last: nat)
    requires StopsAt(replies, from, last)
    ensures Accumulate(replies, from) == Some(DataOf(replies, from, last))
    decreases last - from
  {
    if from < last {
      assert StopsAt(replies, from + 1, last);
      StopRule(replies, from + 1, last);
      assert DataOf(replies, from + 1, last + 0) == DataOf(replies, from + 1, last);
    } else {
      assert Reply(replies, from).Some?;
      var p := Reply(replies, from).value;
      assert !Continues(p, from);
      assert Accumulate(replies, from) == Some(p.data);
      assert DataOf(replies, from + 1, last) == [];
      assert DataOf(replies, from, last) == p.data + [];
      assert p.data + [] == p.data;
    }
  }

  /** Conversely, a fetch that did not fail stopped at some page. */
  lemma {:induction false} StopPageExists(replies: seq<Option<Page>>, from: nat) returns (last: nat)
    requires Accumulate(replies, from).Some?
    ensures StopsAt(replies, from, last)
    ensures Accumulate(replies, from) == Some(DataOf(replies, from, last))
    decreases |replies| + 1 - from
  {
    var p := Reply(replies, from).value;
    if Continues(p, from) {
      last := StopPageExists(replies, from + 1);
      assert forall k :: from <= k <= last ==> Reply(replies, k).Some? by {
        forall k | from <= k <= last ensures Reply(replies, k).Some? {
          if k > from { assert from + 1 <= k <= last; }
        }
      }
    } else {
      last := from;
    }
    StopRule(replies, from, last);
  }

  const NoData: Frame<string> := Frame({}, [])

  /** The DataFrame fetch_data_from_api returns. */
  function FetchReport(login: Option<Login>, replies: seq<Option<Page>>): (df: Frame<string>)
    ensures login.None? || !LoginComplete(login.value) ==> df == NoData
    ensures Accumulate(replies, 1) == None ==> df == NoData
    ensures Accumulate(replies, 1) == Some([]) ==> df == NoData
    ensures login.Some? && LoginComplete(login.value) && Accumulate(replies, 1).Some? ==>
      var all := Accumulate(replies, 1).value;
      && WellFormed(df)
      && |df.rows| == |all|
      && (all != [] ==> !Empty(df))
      && (forall i :: 0 <= i < |all| ==>
            && Get(df.rows[i], "accessToken") == login.value.accessToken
            && Get(df.rows[i], "buyerId") == login.value.id)
      && (forall i, c :: 0 <= i < |all| && c != "accessToken" && c != "buyerId" ==>
            Get(df.rows[i], c) == Get(all[i], c))
  {
    if login.None? || !LoginComplete(login.value) then NoData
    else match Accumulate(replies, 1)
      case None => NoData
      case Some(all) =>
        if all == [] then NoData
        else
          var df := SetColumn(SetColumn(FromRecords(all), "accessToken", login.value.accessToken), "buyerId", login.value.id);
          assert "accessToken" in df.columns && df.rows[0] in df.rows;
          df
  }

  /** The request loop of fetch_data_from_api. `login` is the login reply
      (None when the login request raised); the report requests are answered
      from `replies`. */
  method FetchDataFromApi(login: Option<Login>, replies: seq<Option<Page>>) returns (df: Frame<string>)
    ensures df == FetchReport(login, replies)
  {
    if login.None? || !LoginComplete(login.value) {
      return NoData;
    }
    var allData: seq<Record> := [];
    var pageNo: nat := 1;
    assert Prefixed([], Accumulate(replies, 1)) == Accumulate(replies, 1) by {
      if Accumulate(replies, 1).Some? {
        assert [] + Accumulate(replies, 1).value == Accumulate(replies, 1).value;
      }
    }
    while true
      invariant 1 <= pageNo
      invariant Accumulate(replies, 1) == Prefixed(allData, Accumulate(replies, pageNo))
      decreases |replies| + 1 - pageNo
    {
      var reply := Reply(replies, pageNo);
      if reply.None? {
        return NoData;
      }
      var candidates := reply.value.data;
      ghost var before := allData;
      allData := allData + candidates;
      assert Prefixed(before, Prefixed(candidates, Accumulate(replies, pageNo + 1)))
          == Prefixed(allData, Accumulate(replies, pageNo + 1)) by {
        if Accumulate(replies, pageNo + 1).Some? {
          var rest := Accumulate(replies, pageNo + 1).value;
          assert before + (candidates + rest) == allData + rest;
        }
      }
      if |candidates| < PageSize || pageNo * PageSize >= reply.value.getCount {
        break;
      }
      pageNo := pageNo + 1;
    }
    if allData == [] {
      return NoData;
    }
    df := FromRecords(allData);
    df := SetColumn(df, "accessToken", login.value.accessToken);
    df := SetColumn(df, "buyerId", login.value.id);
  }
}
