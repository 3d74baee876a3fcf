/** The tables each edge-health node keeps and the vote it takes over them (pkg/edge-health/data, check, vote). */
module EdgeHealth {
  import opened Objects

  type Ip = string
  type Row = map<Ip, ResultDetail>
  type Verdicts = map<Ip, Row>  // checker, then checked

  // ---- What the table operations do ----

  function Stamp(row: Row, now: int): Row { map ip | ip in row :: row[ip].(time := now) }

  function WithReport(t: Verdicts, source: Ip, row: Row, now: int): Verdicts { t[source := Stamp(row, now)] }

  function RowOf(t: Verdicts, checker: Ip): Row { if checker in t then t[checker] else map[] }

  function WithVerdict(t: Verdicts, self: Ip, ip: Ip, detail: ResultDetail): Verdicts {
    t[self := RowOf(t, self)[ip := detail]]
  }

  /** DeleteResultData forgets the row of `ip` and this node's own verdict about it. */
  function WithoutNode(t: Verdicts, self: Ip, ip: Ip): Verdicts {
    (if self in t then t[self := t[self] - {ip}] else t) - {ip}
  }

  /** The table after GetNodeList: rows of members only, and no verdict of its own about a dropped checker. */
  function MembersOnly(t: Verdicts, self: Ip, members: set<Ip>): Verdicts {
    map c | c in t && c in members :: if c == self then t[c] - (t.Keys - members) else t[c]
  }

  class ResultData {
    var result: Verdicts

    method SetResult(source: Ip, row: Row, now: int)
      modifies this
      ensures result == WithReport(old(result), source, row, now)
      ensures source in result && result[source].Keys == row.Keys
      ensures forall ip :: ip in row ==> result[source][ip] == ResultDetail(row[ip].normal, now)
      ensures forall c :: c != source ==> (c in result <==> c in old(result)) && (c in result ==> result[c] == old(result)[c])
    {
      if source !in result {
        result := result[source := map[]];
      }
      var stamped := row;
      var todo := row.Keys;
      while todo != {}
        invariant todo <= row.Keys && stamped.Keys == row.Keys
        invariant forall k :: k in row ==> stamped[k] == if k in todo then row[k] else row[k].(time := now)
      {
        var k :| k in todo;
        todo := todo - {k};
        stamped := stamped[k := stamped[k].(time := now)];
      }
      result := result[source := stamped];
      assert stamped == Stamp(row, now);
      assert result == WithReport(old(result), source, row, now);
    }

    method SetResultFromCheckInfo(localIp: Ip, desip: Ip, detail: ResultDetail)
      modifies this
      ensures result == WithVerdict(old(result), localIp, desip, detail)
      ensures localIp in result && desip in result[localIp] && result[localIp][desip] == detail
      ensures forall ip :: ip != desip ==>
                (ip in result[localIp] <==> localIp in old(result) && ip in old(result)[localIp])
                && (ip in result[localIp] ==> result[localIp][ip] == old(result)[localIp][ip])
      ensures forall c :: c != localIp ==> (c in result <==> c in old(result)) && (c in result ==> result[c] == old(result)[c])
    {
      if localIp !in result {
        result := result[localIp := map[]];
      }
      result := result[localIp := result[localIp][desip := detail]];
      assert result == WithVerdict(old(result), localIp, desip, detail);
    }

    method CopyLocalResultData(localIp: Ip) returns (row: Row)
      ensures row == RowOf(result, localIp)
      ensures localIp in result ==> row == result[localIp]
      ensures localIp !in result ==> row == map[]
    {
      row := map[];
      if localIp !in result { return; }
      var source := result[localIp];
      var todo := source.Keys;
      while todo != {}
        invariant todo <= source.Keys && row.Keys == source.Keys - todo
        invariant forall k :: k in row ==> row[k] == source[k]
      {
        var k :| k in todo;
        todo := todo - {k};
        row := row[k := ResultDetail(source[k].normal, source[k].time)];
      }
    }

    method DeleteResultData(self: Ip, ip: Ip)
      modifies this
      ensures result == WithoutNode(old(result), self, ip)
      ensures ip !in result && (self in result ==> ip !in result[self])
      ensures forall c :: c in old(result) && c != ip ==>
                c in result && result[c] == if c == self then old(result)[c] - {ip} else old(result)[c]
      ensures forall c :: c in result ==> c in old(result)
    {
      if self in result {
        result := result[self := result[self] - {ip}];
      }
      result := result - {ip};
    }
  }

  /** float64 arithmetic on finite values: any product and any sum, rounded somehow. */
  datatype Float = Float(times: (real, real) -> real, plus: (real, real) -> real)

  class CheckInfoData {
    var checkInfo: map<Ip, map<string, real>>

    method SetCheckInfo(fl: Float, checkedIp: Ip, plugin: string, weight: real, score: int)
      modifies this
      ensures checkInfo.Keys == old(checkInfo.Keys) + {checkedIp}
      ensures plugin in checkInfo[checkedIp] && checkInfo[checkedIp][plugin] == fl.times(score as real, weight)
      ensures checkInfo == old(checkInfo)[checkedIp := checkInfo[checkedIp]]
      ensures checkInfo[checkedIp] ==
              (if checkedIp in old(checkInfo) then old(checkInfo)[checkedIp] else map[])[plugin := checkInfo[checkedIp][plugin]]
    {
      if checkedIp !in checkInfo {
        checkInfo := checkInfo[checkedIp := map[]];
      }
      checkInfo := checkInfo[checkedIp := checkInfo[checkedIp][plugin := fl.times(score as real, weight)]];
    }

    method SetCheckedIpCheckInfo(checkedIp: Ip)
      modifies this
      ensures checkInfo == if checkedIp in old(checkInfo) then old(checkInfo) else old(checkInfo)[checkedIp := map[]]
    {
      if checkedIp !in checkInfo {
        checkInfo := checkInfo[checkedIp := map[]];
      }
    }

    method DeleteCheckedIpCheckInfo(ip: Ip)
      modifies this
      ensures checkInfo == old(checkInfo) - {ip}
    {
      checkInfo := checkInfo - {ip};
    }
  }

  /** GetNodeList's first two loops: CheckInfo comes to hold exactly the listed addresses, with the scores it had. */
  method ListMembers(nodeIps: seq<Ip>, info: CheckInfoData) returns (iplist: set<Ip>)
    modifies info
    ensures iplist == set ip | ip in nodeIps
    ensures info.checkInfo.Keys == iplist
    ensures forall ip :: ip in iplist ==>
              info.checkInfo[ip] == if ip in old(info.checkInfo) then old(info.checkInfo)[ip] else map[]
  {
    ghost var scores := info.checkInfo;
    iplist := {};
    for i := 0 to |nodeIps|
      invariant iplist == set ip | ip in nodeIps[..i]
      invariant info.checkInfo.Keys == scores.Keys + iplist
      invariant forall ip :: ip in info.checkInfo ==> info.checkInfo[ip] == if ip in scores then scores[ip] else map[]
    {
      assert nodeIps[..i + 1] == nodeIps[..i] + [nodeIps[i]];
      iplist := iplist + {nodeIps[i]};
      info.SetCheckedIpCheckInfo(nodeIps[i]);
    }
    assert nodeIps[..|nodeIps|] == nodeIps;
    var traversed := info.checkInfo.Keys;
    while traversed != {}
      invariant traversed <= scores.Keys + iplist
      invariant info.checkInfo.Keys == iplist + traversed
      invariant forall ip :: ip in info.checkInfo ==> info.checkInfo[ip] == if ip in scores then scores[ip] else map[]
    {
      var v :| v in traversed;
      traversed := traversed - {v};
      if v !in iplist {
        info.DeleteCheckedIpCheckInfo(v);
      }
    }
  }

  /** GetNodeList's last loop. */
  method PruneRows(self: Ip, iplist: set<Ip>, data: ResultData)
    modifies data
    ensures data.result == MembersOnly(old(data.result), self, iplist)
  {
    ghost var rows := data.result;
    var checkers := data.result.Keys;
    assert rows.Keys - (iplist + checkers) == {};
    assert self in rows ==> rows[self] - {} == rows[self];
    assert data.result == MembersOnly(rows, self, iplist + checkers);
    while checkers != {}
      invariant checkers <= rows.Keys
      invariant data.result == MembersOnly(rows, self, iplist + checkers)
    {
      var k :| k in checkers;
      ghost var rest := iplist + (checkers - {k});
      if k !in iplist {
        DropOne(rows, self, rest, k);
        assert iplist + checkers == rest + {k};
        data.DeleteResultData(self, k);
      } else {
        assert rest == iplist + checkers;
      }
      checkers := checkers - {k};
    }
    assert iplist + {} == iplist;
  }

  lemma DropOne(t: Verdicts, self: Ip, members: set<Ip>, k: Ip)
    requires k in t && k !in members
    ensures WithoutNode(MembersOnly(t, self, members + {k}), self, k) == MembersOnly(t, self, members)
  {
    if self in t && self in members {
      assert t[self] - (t.Keys - (members + {k})) - {k} == t[self] - (t.Keys - members);
    }
  }

  /** The tail of GetNodeList: `nodeIps` are the addresses found for the listed nodes, possibly with repeats. Afterwards
      every checker with a row is in CheckInfo. */
  method GetNodeList(self: Ip, nodeIps: seq<Ip>, info: CheckInfoData, data: ResultData)
    modifies info, data
    ensures info.checkInfo.Keys == set ip | ip in nodeIps
    ensures data.result == MembersOnly(old(data.result), self, info.checkInfo.Keys)
    ensures data.result.Keys <= info.checkInfo.Keys
    ensures data.result.Keys == old(data.result.Keys) * (set ip | ip in nodeIps)
    ensures forall c :: c in data.result && c != self ==> data.result[c] == old(data.result)[c]
    ensures self in data.result ==>
              forall ip :: ip in data.result[self] <==> ip in old(data.result)[self] && !(ip in old(data.result) && ip !in nodeIps)
    ensures self in data.result ==> forall ip :: ip in data.result[self] ==> data.result[self][ip] == old(data.result)[self][ip]
  {
    var iplist := ListMembers(nodeIps, info);
    PruneRows(self, iplist, data);
  }

  // ---- Check: from plugin scores to verdicts ----

  /** The scores added one after the other. */
  function Sum(fl: Float, scores: map<string, real>, order: seq<string>): real
    requires forall i :: 0 <= i < |order| ==> order[i] in scores
  {
    if order == [] then 0.0
    else
      var n := |order| - 1;
      fl.plus(Sum(fl, scores, order[..n]), scores[order[n]])
  }

  lemma SumSnoc(fl: Float, scores: map<string, real>, order: seq<string>, p: string)
    requires p in scores && forall i :: 0 <= i < |order| ==> order[i] in scores
    ensures Sum(fl, scores, order + [p]) == fl.plus(Sum(fl, scores, order), scores[p])
  {
    assert (order + [p])[..|order|] == order;
  }

  /** Every plugin once. */
  ghost predicate Orders(order: seq<string>, scores: map<string, real>) {
    && (forall i :: 0 <= i < |order| ==> order[i] in scores)
    && (forall p :: p in scores ==> p in order)
    && (forall i, j :: 0 <= i < j < |order| ==> order[i] != order[j])
  }

  /** A sum of the scores in some order: the map's iteration order, and with it the rounding, is open. */
  ghost predicate IsSum(fl: Float, scores: map<string, real>, total: real) {
    exists order :: Orders(order, scores) && total == Sum(fl, scores, order)
  }

  method SumScores(fl: Float, scores: map<string, real>) returns (total: real)
    ensures IsSum(fl, scores, total)
  {
    total := 0.0;
    ghost var order: seq<string> := [];
    var left := scores.Keys;
    while left != {}
      invariant left <= scores.Keys
      invariant forall i :: 0 <= i < |order| ==> order[i] in scores.Keys - left
      invariant forall p :: p in scores.Keys - left ==> p in order
      invariant forall i, j :: 0 <= i < j < |order| ==> order[i] != order[j]
      invariant total == Sum(fl, scores, order)
    {
      var p :| p in left;
      SumSnoc(fl, scores, order, p);
      total := fl.plus(total, scores[p]);
      order := order + [p];
      left := left - {p};
    }
    assert Orders(order, scores);
  }

  /** A verdict on these scores: normal exactly when a sum of them reaches the line. */
  ghost predicate IsVerdict(fl: Float, scores: map<string, real>, scoreLine: real, d: ResultDetail) {
    exists total :: IsSum(fl, scores, total) && d == ResultDetail(total >= scoreLine, 0)
  }

  /** A row after fresh verdicts on the scored addresses. */
  ghost predicate Judged(fl: Float, row: Row, scores: map<Ip, map<string, real>>, scoreLine: real, judged: Row) {
    && judged.Keys == row.Keys + scores.Keys
    && (forall ip :: ip in scores ==> IsVerdict(fl, scores[ip], scoreLine, judged[ip]))
    && (forall ip :: ip in row && ip !in scores ==> judged[ip] == row[ip])
  }

  /** Check after its plugins ran: this node's row is judged anew on every address in CheckInfo; nothing else changes. */
  method Check(fl: Float, self: Ip, scoreLine: real, info: CheckInfoData, data: ResultData)
    modifies data
    ensures info.checkInfo == map[] ==> data.result == old(data.result)
    ensures info.checkInfo != map[] ==>
              self in data.result && data.result == old(data.result)[self := data.result[self]]
              && Judged(fl, RowOf(old(data.result), self), info.checkInfo, scoreLine, data.result[self])
  {
    ghost var before := data.result;
    var scores := info.checkInfo;
    var todo := scores.Keys;
    while todo != {}
      invariant todo <= scores.Keys
      invariant if todo == scores.Keys then data.result == before
                else JudgedTable(fl, before, self, scores - todo, scoreLine, data.result)
    {
      var desip :| desip in todo;
      var total := SumScores(fl, scores[desip]);
      ghost var was := data.result;
      data.SetResultFromCheckInfo(self, desip, ResultDetail(total >= scoreLine, 0));
      JudgeOne(fl, before, self, scores, todo, scoreLine, desip, was, ResultDetail(total >= scoreLine, 0));
      todo := todo - {desip};
    }
    assert scores - {} == scores;
  }

  /** The table once the given addresses are judged. */
  ghost predicate JudgedTable(fl: Float, t: Verdicts, self: Ip, scores: map<Ip, map<string, real>>, scoreLine: real, now: Verdicts) {
    self in now && now == t[self := now[self]] && Judged(fl, RowOf(t, self), scores, scoreLine, now[self])
  }

  lemma JudgeOne(fl: Float, t: Verdicts, self: Ip, scores: map<Ip, map<string, real>>, todo: set<Ip>, scoreLine: real, ip: Ip,
                 was: Verdicts, d: ResultDetail)
    requires ip in todo && todo <= scores.Keys && IsVerdict(fl, scores[ip], scoreLine, d)
    requires if todo == scores.Keys then was == t else JudgedTable(fl, t, self, scores - todo, scoreLine, was)
    ensures JudgedTable(fl, t, self, scores - (todo - {ip}), scoreLine, WithVerdict(was, self, ip, d))
  {
    var done, more := scores - todo, scores - (todo - {ip});
    assert more.Keys == done.Keys + {ip} && forall a :: a in more ==> more[a] == scores[a];
    var row := RowOf(was, self);
    assert Judged(fl, RowOf(t, self), done, scoreLine, row) by {
      if todo == scores.Keys { assert done == map[]; }
    }
    assert WithVerdict(was, self, ip, d) == t[self := row[ip := d]];
  }

  // ---- When the order of the plugins does not matter ----

  /** The exact sum. */
  ghost function Total(scores: map<string, real>): real
    decreases |scores|
  {
    if scores == map[] then 0.0 else
    var p :| p in scores;
    scores[p] + Total(scores - {p})
  }

  lemma {:induction false} TotalStep(scores: map<string, real>, p: string)
    requires p in scores
    ensures Total(scores) == scores[p] + Total(scores - {p})
    decreases |scores|
  {
    var q :| q in scores && Total(scores) == scores[q] + Total(scores - {q});
    if p != q {
      TotalStep(scores - {q}, p);
      TotalStep(scores - {p}, q);
      assert scores - {p} - {q} == scores - {q} - {p};
    }
  }

  function Part(scores: map<string, real>, plugins: set<string>): map<string, real> { map p | p in scores && p in plugins :: scores[p] }

  /** No sum that can come up on the way is rounded. */
  ghost predicate SumsExactly(fl: Float, scores: map<string, real>) {
    forall plugins, p :: p in scores && p !in plugins ==>
      fl.plus(Total(Part(scores, plugins)), scores[p]) == Total(Part(scores, plugins)) + scores[p]
  }

  function Plugins(order: seq<string>): set<string> { set p | p in order }

  lemma {:induction false} SumIsTotal(fl: Float, scores: map<string, real>, order: seq<string>)
    requires SumsExactly(fl, scores) && forall i :: 0 <= i < |order| ==> order[i] in scores
    requires forall i, j :: 0 <= i < j < |order| ==> order[i] != order[j]
    ensures Sum(fl, scores, order) == Total(Part(scores, Plugins(order)))
    decreases |order|
  {
    if order == [] {
      assert Part(scores, {}) == map[];
    } else {
      var n := |order| - 1;
      var shorter, p := order[..n], order[n];
      SumIsTotal(fl, scores, shorter);
      PartGrows(scores, shorter, order, p);
      assert fl.plus(Total(Part(scores, Plugins(shorter))), scores[p]) == Total(Part(scores, Plugins(shorter))) + scores[p];
      TotalStep(Part(scores, Plugins(order)), p);
    }
  }

  lemma PartGrows(scores: map<string, real>, shorter: seq<string>, order: seq<string>, p: string)
    requires order == shorter + [p] && p in scores && forall i, j :: 0 <= i < j < |order| ==> order[i] != order[j]
    ensures p !in Plugins(shorter) && p in Part(scores, Plugins(order)) && Part(scores, Plugins(order))[p] == scores[p]
    ensures Part(scores, Plugins(order)) - {p} == Part(scores, Plugins(shorter))
  {
    assert forall i :: 0 <= i < |shorter| ==> shorter[i] == order[i] && order[i] != order[|shorter|];
  }

  /** Where no sum on the way is rounded, every order gives the exact sum, so the verdict does not depend on it. */
  lemma OrderIrrelevant(fl: Float, scores: map<string, real>, total: real)
    requires SumsExactly(fl, scores) && IsSum(fl, scores, total)
    ensures total == Total(scores)
  {
    var order :| Orders(order, scores) && total == Sum(fl, scores, order);
    SumIsTotal(fl, scores, order);
    assert Part(scores, Plugins(order)) == scores;
  }

  /** Every order of the plugins gives the exact sum, for these scores and every part of them. */
  ghost predicate OrderNeverMatters(fl: Float, scores: map<string, real>) {
    forall plugins, total :: IsSum(fl, Part(scores, plugins), total) ==> total == Total(Part(scores, plugins))
  }

  lemma PartSumsExactly(fl: Float, scores: map<string, real>, plugins: set<string>)
    requires SumsExactly(fl, scores)
    ensures SumsExactly(fl, Part(scores, plugins))
  {
    var part := Part(scores, plugins);
    forall some: set<string>, p | p in part && p !in some
      ensures fl.plus(Total(Part(part, some)), part[p]) == Total(Part(part, some)) + part[p]
    {
      var both := set q | q in some && q in plugins;
      assert Part(part, some) == Part(scores, both);
      assert p in scores && p !in both;
    }
  }

  lemma {:induction false} SomeOrder(scores: map<string, real>) returns (order: seq<string>)
    ensures Orders(order, scores)
    decreases |scores|
  {
    order := [];
    if scores != map[] {
      var p :| p in scores;
      var rest := SomeOrder(scores - {p});
      order := rest + [p];
      forall i | 0 <= i < |rest| ensures rest[i] != p && rest[i] in scores { assert rest[i] in scores - {p}; }
      forall q | q in scores ensures q in order { assert q == p || q in scores - {p}; }
    }
  }

  lemma {:induction false} SumOfPart(fl: Float, scores: map<string, real>, part: map<string, real>, order: seq<string>)
    requires forall i :: 0 <= i < |order| ==> order[i] in part
    requires forall p :: p in part ==> p in scores && part[p] == scores[p]
    ensures Sum(fl, part, order) == Sum(fl, scores, order)
    decreases |order|
  {
    if order != [] { SumOfPart(fl, scores, part, order[..|order| - 1]); }
  }

  /** Adding one more plugin to some order of a part is an order of the larger part, so its sum is not rounded. */
  lemma NextSumExact(fl: Float, scores: map<string, real>, plugins: set<string>, p: string)
    requires OrderNeverMatters(fl, scores) && p in scores && p !in plugins
    ensures fl.plus(Total(Part(scores, plugins)), scores[p]) == Total(Part(scores, plugins)) + scores[p]
  {
    var part, more := Part(scores, plugins), Part(scores, plugins + {p});
    assert more - {p} == part;
    var order := SomeOrder(part);
    OrderGrows(part, more, order, p);
    ExactSum(fl, scores, plugins, order);
    ExactSum(fl, scores, plugins + {p}, order + [p]);
    LastSumExact(fl, part, more, order, p);
  }

  lemma ExactSum(fl: Float, scores: map<string, real>, plugins: set<string>, order: seq<string>)
    requires OrderNeverMatters(fl, scores) && Orders(order, Part(scores, plugins))
    ensures Sum(fl, Part(scores, plugins), order) == Total(Part(scores, plugins))
  {
    assert IsSum(fl, Part(scores, plugins), Sum(fl, Part(scores, plugins), order));
  }

  lemma LastSumExact(fl: Float, part: map<string, real>, more: map<string, real>, order: seq<string>, p: string)
    requires p in more && more - {p} == part && forall i :: 0 <= i < |order| ==> order[i] in part
    requires Sum(fl, part, order) == Total(part) && Sum(fl, more, order + [p]) == Total(more)
    ensures fl.plus(Total(part), more[p]) == Total(part) + more[p]
  {
    SumSnoc(fl, more, order, p);
    SumOfPart(fl, more, part, order);
    TotalStep(more, p);
  }

  lemma OrderGrows(part: map<string, real>, more: map<string, real>, order: seq<string>, p: string)
    requires Orders(order, part) && more.Keys == part.Keys + {p} && p !in part
    ensures Orders(order + [p], more) && forall i :: 0 <= i < |order| ==> order[i] in more
  {
    forall q | q in more ensures q in order + [p] { assert q == p || q in part; }
    forall i | 0 <= i < |order| ensures order[i] in more && order[i] != p { assert order[i] in part; }
  }

  /** The order never matters, for the scores or any part of them, exactly when no sum that can come up is rounded. */
  lemma OrderNeverMattersIff(fl: Float, scores: map<string, real>)
    ensures OrderNeverMatters(fl, scores) <==> SumsExactly(fl, scores)
  {
    if SumsExactly(fl, scores) {
      forall plugins, total | IsSum(fl, Part(scores, plugins), total) ensures total == Total(Part(scores, plugins)) {
        PartSumsExactly(fl, scores, plugins);
        OrderIrrelevant(fl, Part(scores, plugins), total);
      }
    }
    if OrderNeverMatters(fl, scores) {
      forall plugins: set<string>, p | p in scores && p !in plugins
        ensures fl.plus(Total(Part(scores, plugins)), scores[p]) == Total(Part(scores, plugins)) + scores[p]
      {
        NextSumExact(fl, scores, plugins, p);
      }
    }
  }

  const BIG := 9007199254740992.0  // 2^53

  /** float64 rounds 2^53 + 1 down: then three scores have two sums, and a score line that tells them apart. */
  lemma OrderMatters(fl: Float)
    requires fl.plus(0.0, 1.0) == 1.0 && fl.plus(1.0, 1.0) == 2.0 && fl.plus(2.0, BIG) == BIG + 2.0
    requires fl.plus(0.0, BIG) == BIG && fl.plus(BIG, 1.0) == BIG
    ensures var scores := map["a" := BIG, "b" := 1.0, "c" := 1.0];
            && IsVerdict(fl, scores, BIG + 2.0, ResultDetail(true, 0))
            && IsVerdict(fl, scores, BIG + 2.0, ResultDetail(false, 0))
  {
    var scores := map["a" := BIG, "b" := 1.0, "c" := 1.0];
    ThreeSum(fl, scores, "b", "c", "a");
    ThreeSum(fl, scores, "a", "b", "c");
  }

  lemma ThreeSum(fl: Float, scores: map<string, real>, x: string, y: string, z: string)
    requires scores.Keys == {x, y, z} && x != y && y != z && x != z
    ensures IsSum(fl, scores, fl.plus(fl.plus(fl.plus(0.0, scores[x]), scores[y]), scores[z]))
  {
    ThreeOrder(scores, x, y, z);
    TwoSum(fl, scores, x, y);
    SumSnoc(fl, scores, [x, y], z);
    assert [x, y] + [z] == [x, y, z];
  }

  lemma TwoSum(fl: Float, scores: map<string, real>, x: string, y: string)
    requires x in scores && y in scores
    ensures Sum(fl, scores, [x, y]) == fl.plus(fl.plus(0.0, scores[x]), scores[y])
  {
    SumSnoc(fl, scores, [], x);
    SumSnoc(fl, scores, [x], y);
    assert [] + [x] == [x] && [x] + [y] == [x, y];
  }

  lemma ThreeOrder(scores: map<string, real>, x: string, y: string, z: string)
    requires scores.Keys == {x, y, z} && x != y && y != z && x != z
    ensures Orders([x, y, z], scores)
  {
    var order := [x, y, z];
    forall p | p in scores ensures p in order { assert p == order[0] || p == order[1] || p == order[2]; }
  }
}
