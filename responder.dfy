/**
 * The canned local responder: a question is answered by the reply of the first
 * keyword (in table order) that occurs in it, or by a fixed prompt when none does.
 */
module Responder {
  import opened Optional

  /** The keyword table, in the dictionary's insertion order. */
  const Responses: seq<(string, string)> := [
    ("CA1501状态", "CA1501 今日准点起飞，北京首都机场 T3 → 上海虹桥机场 T2"),
    ("天津飞广州航班", "下周五天津→广州有国航CA3302、南航CZ3121，经济舱最低650元"),
    ("行李丢失怎么办", "联系机场行李服务中心，提供行李牌、身份证和航班信息登记挂失")
  ]

  /** The reply when no keyword occurs. */
  const DefaultReply := "你可以问我航班状态、行程规划或机场相关问题~"

  /** `part` occurs in `text` starting at position `i`. */
  predicate OccursAt(text: string, part: string, i: nat) {
    i + |part| <= |text| && text[i..i + |part|] == part
  }

  /** Python's substring test `part in text`. */
  predicate Contains(text: string, part: string): (b: bool)
    ensures part == [] ==> b
    ensures |part| > |text| ==> !b
  {
    assert part == [] ==> OccursAt(text, part, 0);
    exists i: nat | i <= |text| - |part| :: OccursAt(text, part, i)
  }

  /** The reply of the first entry whose keyword occurs in the question, if any. */
  function FirstResponse(table: seq<(string, string)>, question: string): (r: Option<string>)
    ensures r.None? <==> forall i :: 0 <= i < |table| ==> !Contains(question, table[i].0)
    ensures r.Some? ==> exists i :: 0 <= i < |table| && table[i].1 == r.value && Contains(question, table[i].0)
                                    && forall j :: 0 <= j < i ==> !Contains(question, table[j].0)
  {
    if table == [] then None
    else if Contains(question, table[0].0) then Some(table[0].1)
    else
      var rest := FirstResponse(table[1..], question);
      assert forall i :: 1 <= i < |table| ==> table[i] == table[1..][i - 1];
      rest
  }

  /** `answer`: the first matching keyword's reply, else the default prompt. */
  function Answer(question: string): (reply: string)
    ensures reply == DefaultReply || exists i :: 0 <= i < |Responses| && reply == Responses[i].1
    ensures (forall i :: 0 <= i < |Responses| ==> !Contains(question, Responses[i].0)) ==> reply == DefaultReply
  {
    FirstResponse(Responses, question).GetOr(DefaultReply)
  }

  /** The first keyword that occurs decides the reply. */
  lemma FirstKeywordWins(question: string, i: nat)
    requires i < |Responses| && Contains(question, Responses[i].0)
    requires forall j :: 0 <= j < i ==> !Contains(question, Responses[j].0)
    ensures Answer(question) == Responses[i].1
  {
    var r := FirstResponse(Responses, question);
    var k :| 0 <= k < |Responses| && Responses[k].1 == r.value && Contains(question, Responses[k].0)
             && forall j :: 0 <= j < k ==> !Contains(question, Responses[j].0);
    assert k == i;
  }

  /** The default prompt is given exactly when no keyword occurs. */
  lemma DefaultWhenNoKeyword(question: string)
    ensures Answer(question) == DefaultReply <==> forall i :: 0 <= i < |Responses| ==> !Contains(question, Responses[i].0)
  {
    var r := FirstResponse(Responses, question);
    if r.Some? {
      var k :| 0 <= k < |Responses| && Responses[k].1 == r.value && Contains(question, Responses[k].0);
      assert Responses[k].1 != DefaultReply by {
        assert Responses[k].1[0] != DefaultReply[0];
      }
    }
  }

  /** No keyword occurs inside another, so asking a keyword itself gets its own reply. */
  lemma KeywordGetsOwnReply(i: nat)
    requires i < |Responses|
    ensures Answer(Responses[i].0) == Responses[i].1
  {
    var q := Responses[i].0;
    assert Contains(q, q) by {
      assert OccursAt(q, q, 0);
    }
    FirstKeywordWins(q, i);
  }
}
