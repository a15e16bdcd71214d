/**
 * The SQL text of the WHERE fragments and their joining with " AND ", as
 * block_timestat_build_logs_array does it, and the dialect specific post-processing
 * block_timestat_get_logs applies to the joined selector before the query string is
 * assembled. The generic path moves every column reference from the outer log alias
 * `l.` to the inner alias `l2.` and, only when the result is non-empty, adds the
 * positive-time condition when no user is given. The mysqli path always writes
 * "WHERE " and adds that condition when no user is given. A given user adds a
 * user-id condition.
 */
module Selector {
  import opened Decimal
  import opened LogFilter

  /** The database family: the mysqli driver, or any other driver. */
  datatype Dialect = Mysqli | OtherDb

  /** The driver's text for the case-insensitive LIKE and NOT LIKE of l.action against :modaction. */
  datatype LikeSql = LikeSql(like: string, notLike: string)

  /** `w` occurs in `s` at position `i`. */
  predicate OccursAt(s: string, w: string, i: int) {
    0 <= i <= |s| - |w| && s[i..i + |w|] == w
  }

  /** `w` occurs in `s`. */
  ghost predicate Mentions(s: string, w: string) {
    exists i :: OccursAt(s, w, i)
  }

  /**
   * The SQL text of a fragment. Every placeholder the fragment binds is named in its
   * text (the LIKE texts come from the driver), and a member test lists the ids in
   * parentheses.
   */
  function FragmentSql(f: Fragment, likes: LikeSql): (r: string)
    ensures forall p :: p in Placeholders(f) && !f.ActionLike? ==> Mentions(r, ":" + p)
    ensures f.UserIn? ==> Mentions(r, "(" + ImplodeInts(f.ids) + ")")
  {
    match f
    case CourseEq => CourseText(); CourseSql
    case ModuleEq => ModuleText(); ModuleSql
    case SiteErrorActions => "( l.action='error' OR l.action='infected' )"
    case ContextEq => ContextText(); ContextSql
    case ActionLike(notLike) => if notLike then likes.notLike else likes.like
    case UserIn(ids) =>
      Middle("l.userid IN ", "(" + ImplodeInts(ids) + ")", "");
      assert "l.userid IN " + ("(" + ImplodeInts(ids) + ")") + "" == "l.userid IN " + ("(" + ImplodeInts(ids) + ")");
      "l.userid IN " + ("(" + ImplodeInts(ids) + ")")
    case NoUser => "l.userid = 0"
    case DateRange => DateText(); DateSql
  }

  const CourseSql := "l.courseid = " + ":courseid"
  const ModuleSql := "l.module = " + ":modname"
  const ContextSql := "l.contextinstanceid = " + ":modid"
  const DateSql := "l.timecreated > " + ":date" + " AND l.timecreated < " + ":enddate"

  lemma Middle(a: string, w: string, b: string)
    ensures Mentions(a + w + b, w)
  {
    assert (a + w + b)[|a|..|a| + |w|] == w;
    assert OccursAt(a + w + b, w, |a|);
  }

  lemma CourseText()
    ensures forall p :: p in Placeholders(CourseEq) ==> Mentions(CourseSql, ":" + p)
  {
    Middle("l.courseid = ", ":courseid", "");
    assert "l.courseid = " + ":courseid" + "" == CourseSql;
    assert ":" + "courseid" == ":courseid";
  }

  lemma ModuleText()
    ensures forall p :: p in Placeholders(ModuleEq) ==> Mentions(ModuleSql, ":" + p)
  {
    Middle("l.module = ", ":modname", "");
    assert "l.module = " + ":modname" + "" == ModuleSql;
    assert ":" + "modname" == ":modname";
  }

  lemma ContextText()
    ensures forall p :: p in Placeholders(ContextEq) ==> Mentions(ContextSql, ":" + p)
  {
    Middle("l.contextinstanceid = ", ":modid", "");
    assert "l.contextinstanceid = " + ":modid" + "" == ContextSql;
    assert ":" + "modid" == ":modid";
  }

  lemma DateText()
    ensures forall p :: p in Placeholders(DateRange) ==> Mentions(DateSql, ":" + p)
  {
    Middle("l.timecreated > ", ":date", " AND l.timecreated < " + ":enddate");
    assert "l.timecreated > " + ":date" + (" AND l.timecreated < " + ":enddate") == DateSql;
    Middle("l.timecreated > " + ":date" + " AND l.timecreated < ", ":enddate", "");
    assert "l.timecreated > " + ":date" + " AND l.timecreated < " + ":enddate" + "" == DateSql;
    assert Mentions(DateSql, ":date") && Mentions(DateSql, ":enddate");
    assert ":" + "date" == ":date" && ":" + "enddate" == ":enddate";
  }

  function FragmentTexts(joins: seq<Fragment>, likes: LikeSql): (texts: seq<string>)
    ensures |texts| == |joins|
    ensures forall i :: 0 <= i < |joins| ==> texts[i] == FragmentSql(joins[i], likes)
  {
    if joins == [] then [] else [FragmentSql(joins[0], likes)] + FragmentTexts(joins[1..], likes)
  }

  /** PHP `implode($sep, $xs)`. */
  function Implode(sep: string, xs: seq<string>): string {
    if xs == [] then "" else if |xs| == 1 then xs[0] else xs[0] + sep + Implode(sep, xs[1..])
  }

  const And := " AND "

  /** The selector handed to block_timestat_get_logs. */
  function SelectorText(joins: seq<Fragment>, likes: LikeSql): string {
    Implode(And, FragmentTexts(joins, likes))
  }

  // ---------------------------------------------------------------------------
  // The alias rewrite

  /** PHP `str_replace('l.', 'l2.', $s)`: every occurrence, scanning left to right. */
  function QualifyInner(s: string): string {
    if |s| < 2 then s
    else if s[0] == 'l' && s[1] == '.' then "l2." + QualifyInner(s[2..])
    else [s[0]] + QualifyInner(s[1..])
  }

  /** The rewrite never shrinks the text and keeps its first character. */
  lemma {:induction false} QualifyInnerFirst(s: string)
    ensures |QualifyInner(s)| >= |s|
    ensures s != [] ==> QualifyInner(s)[0] == s[0]
  {
    if |s| >= 2 {
      if s[0] == 'l' && s[1] == '.' {
        QualifyInnerFirst(s[2..]);
      } else {
        QualifyInnerFirst(s[1..]);
      }
    }
  }

  /** The rewrite changes the length exactly when the text refers to the outer alias. */
  lemma {:induction false} QualifyInnerGrows(s: string)
    ensures |QualifyInner(s)| == |s| <==> !RefersToOuter(s)
  {
    if |s| >= 2 {
      if s[0] == 'l' && s[1] == '.' {
        assert RefersToOuter(s) by {
          assert s[0] == 'l' && s[1] == '.';
        }
        QualifyInnerFirst(s[2..]);
      } else {
        RefersToOuterTail(s);
        QualifyInnerGrows(s[1..]);
      }
    }
  }

  /** Whether a text refers to the outer alias, i.e. contains "l.". */
  predicate RefersToOuter(s: string) {
    exists i :: 0 <= i < |s| - 1 && s[i] == 'l' && s[i + 1] == '.'
  }

  /** A text not starting with "l." refers to the outer alias exactly when its tail does. */
  lemma RefersToOuterTail(s: string)
    requires |s| >= 2 && !(s[0] == 'l' && s[1] == '.')
    ensures RefersToOuter(s) <==> RefersToOuter(s[1..])
  {
    if RefersToOuter(s) {
      var i :| 0 <= i < |s| - 1 && s[i] == 'l' && s[i + 1] == '.';
      assert s[1..][i - 1] == s[i] && s[1..][i] == s[i + 1];
    }
    if RefersToOuter(s[1..]) {
      var i :| 0 <= i < |s[1..]| - 1 && s[1..][i] == 'l' && s[1..][i + 1] == '.';
      assert s[i + 1] == 'l' && s[i + 2] == '.';
    }
  }

  /** After the rewrite no column reference is left on the outer alias. */
  lemma {:induction false} QualifyInnerNoOuter(s: string)
    ensures !RefersToOuter(QualifyInner(s))
  {
    if |s| >= 2 {
      if s[0] == 'l' && s[1] == '.' {
        var rest := QualifyInner(s[2..]);
        QualifyInnerNoOuter(s[2..]);
        var r := "l2." + rest;
        forall i | 0 <= i < |r| - 1 ensures !(r[i] == 'l' && r[i + 1] == '.') {
          if i >= 3 {
            assert r[i] == rest[i - 3] && r[i + 1] == rest[i - 2];
          }
        }
      } else {
        var rest := QualifyInner(s[1..]);
        QualifyInnerNoOuter(s[1..]);
        var r := [s[0]] + rest;
        forall i | 0 <= i < |r| - 1 ensures !(r[i] == 'l' && r[i + 1] == '.') {
          if i >= 1 {
            assert r[i] == rest[i - 1] && r[i + 1] == rest[i];
          }
        }
      }
    }
  }

  /** No "l." straddles the seam between two texts. */
  predicate Seamless(a: string, b: string) {
    !(a != [] && b != [] && a[|a| - 1] == 'l' && b[0] == '.')
  }

  /** The rewrite of a concatenation is the concatenation of the rewrites when nothing straddles the seam. */
  lemma {:induction false} QualifyInnerConcat(a: string, b: string)
    requires Seamless(a, b)
    ensures QualifyInner(a + b) == QualifyInner(a) + QualifyInner(b)
  {
    if a == [] {
      assert a + b == b;
    } else if |a| == 1 {
      QualifyUnitConcat(a, b);
    } else if a[0] == 'l' && a[1] == '.' {
      var ab := a + b;
      assert ab[0] == 'l' && ab[1] == '.' && ab[2..] == a[2..] + b;
      QualifyInnerConcat(a[2..], b);
    } else {
      var ab := a + b;
      assert ab[0] == a[0] && ab[1] == a[1] && ab[1..] == a[1..] + b;
      QualifyInnerConcat(a[1..], b);
    }
  }

  /** A single character in front of a text that does not start an "l." with it is left alone. */
  lemma QualifyUnitConcat(a: string, b: string)
    requires |a| == 1 && Seamless(a, b)
    ensures QualifyInner(a + b) == a + QualifyInner(b)
  {
    if b != [] {
      var ab := a + b;
      assert ab[0] == a[0] && ab[1] == b[0] && ab[1..] == b;
      assert [ab[0]] == a;
    }
  }

  function QualifyAll(xs: seq<string>): (ys: seq<string>)
    ensures |ys| == |xs|
    ensures forall i :: 0 <= i < |xs| ==> ys[i] == QualifyInner(xs[i])
  {
    if xs == [] then [] else [QualifyInner(xs[0])] + QualifyAll(xs[1..])
  }

  /** Rewriting the joined selector is rewriting each fragment: " AND " keeps them apart. */
  lemma {:induction false} QualifyImplode(xs: seq<string>)
    ensures QualifyInner(Implode(And, xs)) == Implode(And, QualifyAll(xs))
  {
    if |xs| >= 2 {
      var rest := Implode(And, xs[1..]);
      assert Implode(And, xs) == xs[0] + (And + rest);
      QualifyInnerConcat(xs[0], And + rest);
      QualifyInnerConcat(And, rest);
      QualifyAnd();
      QualifyImplode(xs[1..]);
      var ys := QualifyAll(xs);
      assert ys[1..] == QualifyAll(xs[1..]);
      assert Implode(And, ys) == ys[0] + And + Implode(And, ys[1..]);
    }
  }

  /** The separator has no "l." to rewrite. */
  lemma QualifyAnd()
    ensures QualifyInner(And) == And
  {
    assert And[1..][1..][1..][1..][1..] == [];
  }

  /** A text that does not refer to the outer alias is left as it is. */
  lemma {:induction false} QualifyInnerPlain(s: string)
    requires !RefersToOuter(s)
    ensures QualifyInner(s) == s
  {
    if |s| >= 2 {
      assert !(s[0] == 'l' && s[1] == '.');
      assert !RefersToOuter(s[1..]) by {
        forall i | 0 <= i < |s[1..]| - 1 ensures !(s[1..][i] == 'l' && s[1..][i + 1] == '.') {
          assert s[1..][i] == s[i + 1] && s[1..][i + 1] == s[i + 2];
        }
      }
      QualifyInnerPlain(s[1..]);
    }
  }

  /** A fragment on a single column of the outer alias moves to the same column of the inner alias. */
  lemma QualifyColumn(column: string)
    requires !RefersToOuter(column)
    ensures QualifyInner("l." + column) == "l2." + column
  {
    assert ("l." + column)[2..] == column;
    QualifyInnerPlain(column);
  }

  // ---------------------------------------------------------------------------
  // The selector post-processing of block_timestat_get_logs

  const OtherPositiveTime := " AND f2.timespent > 0 "
  const MysqliPositiveTime := " AND bt.timespent > 0 "
  const MysqliPositiveTest := "bt.timespent > 0 "
  const UserIdClause := "AND userid = :userid"

  /** The two pieces get_logs puts into its query: the filter condition and the user-id condition. */
  datatype Clauses = Clauses(select: string, userIdSelect: string)

  /** PHP `$params['userid'] ?? 0`. */
  function UserIdParam(params: map<string, Param>): int {
    if "userid" in params && params["userid"].IntParam? then params["userid"].i else 0
  }

  /** The generic path: the rewritten selector after " AND ", and the positive-time test when no user is given. */
  function OtherDbSelect(select: string, userid: int): string {
    var inner := QualifyInner(select);
    if Truthy(inner) then " AND " + inner + (if userid == 0 then OtherPositiveTime else "") else inner
  }

  /**
   * The clauses as written. On mysqli the selector always follows "WHERE ", so an empty
   * selector leaves either nothing or " AND ..." after it.
   */
  function GetLogsClausesAsWritten(select: string, params: map<string, Param>, dialect: Dialect): (r: Clauses)
    ensures dialect == Mysqli ==> |r.select| >= 6 && r.select[..6] == "WHERE "
    ensures dialect == OtherDb && Truthy(QualifyInner(select)) ==> |r.select| > 5 && r.select[..5] == " AND "
    ensures dialect == OtherDb && !Truthy(QualifyInner(select)) ==> !Truthy(r.select)
    ensures r.userIdSelect == UserIdClause <==> UserIdParam(params) != 0
    ensures UserIdParam(params) == 0 ==> r.userIdSelect == ""
  {
    var userid := UserIdParam(params);
    var filter :=
      match dialect
      case OtherDb => OtherDbSelect(select, userid)
      case Mysqli => "WHERE " + select + (if userid == 0 then MysqliPositiveTime else "");
    Clauses(filter, if userid != 0 then UserIdClause else "")
  }

  /** The mysqli conditions: the selector when there is one, and the positive-time test when no user is given. */
  function MysqliConditions(select: string, userid: int): seq<string> {
    (if Truthy(select) then [select] else []) + (if userid == 0 then [MysqliPositiveTest] else [])
  }

  /**
   * The clauses with the mysqli condition list joined by " AND " and "WHERE " written only
   * in front of a non-empty list. This is the version the rest of the model uses.
   */
  function GetLogsClauses(select: string, params: map<string, Param>, dialect: Dialect): (r: Clauses)
    ensures dialect == Mysqli ==> (r.select == "" <==> !Truthy(select) && UserIdParam(params) != 0)
    ensures dialect == Mysqli && r.select != "" ==> |r.select| > 6 && r.select[..6] == "WHERE "
    ensures dialect == OtherDb && Truthy(QualifyInner(select)) ==> |r.select| > 5 && r.select[..5] == " AND "
    ensures dialect == OtherDb && !Truthy(QualifyInner(select)) ==> !Truthy(r.select)
    ensures r.userIdSelect == UserIdClause <==> UserIdParam(params) != 0
    ensures UserIdParam(params) == 0 ==> r.userIdSelect == ""
  {
    var userid := UserIdParam(params);
    var filter :=
      match dialect
      case OtherDb => OtherDbSelect(select, userid)
      case Mysqli =>
        var conds := MysqliConditions(select, userid);
        if conds == [] then ""
        else
          assert |Implode(And, conds)| >= |conds[0]| > 0;
          "WHERE " + Implode(And, conds);
    Clauses(filter, if userid != 0 then UserIdClause else "")
  }

  /** The correction changes nothing on the generic path, nor on mysqli when there is a selector. */
  lemma CorrectionAgrees(select: string, params: map<string, Param>, dialect: Dialect)
    requires dialect == OtherDb || Truthy(select)
    ensures GetLogsClauses(select, params, dialect) == GetLogsClausesAsWritten(select, params, dialect)
  {
    if dialect == Mysqli {
      var userid := UserIdParam(params);
      MysqliJoin(select, userid);
      assert GetLogsClauses(select, params, dialect).select == "WHERE " + Implode(And, MysqliConditions(select, userid));
    }
  }

  /** With a selector, the joined mysqli conditions are the selector followed by the positive-time test when no user is given. */
  lemma MysqliJoin(select: string, userid: int)
    requires Truthy(select)
    ensures Implode(And, MysqliConditions(select, userid)) == select + (if userid == 0 then MysqliPositiveTime else "")
  {
    if userid == 0 {
      assert MysqliConditions(select, userid) == [select, MysqliPositiveTest];
      PositiveTimeSplit();
    } else {
      assert MysqliConditions(select, userid) == [select];
    }
  }

  lemma PositiveTimeSplit()
    ensures MysqliPositiveTime == And + MysqliPositiveTest
  {
  }

  // ---------------------------------------------------------------------------
  // Properties of the assembled clauses

  /** Driver LIKE texts that are non-empty and not "0", as the platform produces them. */
  predicate SoundLikes(likes: LikeSql) {
    Truthy(likes.like) && Truthy(likes.notLike)
  }

  lemma {:induction false} ImplodeTruthy(xs: seq<string>)
    requires forall i :: 0 <= i < |xs| ==> Truthy(xs[i])
    ensures Truthy(Implode(And, xs)) <==> xs != []
  {
    if |xs| >= 2 {
      var s := Implode(And, xs);
      assert s == xs[0] + And + Implode(And, xs[1..]);
      assert |s| > 1;
    }
  }

  /** Joining one more item appends the separator and the item. */
  lemma {:induction false} ImplodeSnoc(xs: seq<string>, y: string)
    requires xs != []
    ensures Implode(And, xs + [y]) == Implode(And, xs) + And + y
  {
    if |xs| == 1 {
      assert (xs + [y])[1..] == [y];
    } else {
      assert (xs + [y])[1..] == xs[1..] + [y];
      ImplodeSnoc(xs[1..], y);
    }
  }

  lemma SelectorTruthy(joins: seq<Fragment>, likes: LikeSql)
    requires SoundLikes(likes)
    ensures Truthy(SelectorText(joins, likes)) <==> joins != []
    ensures Truthy(QualifyInner(SelectorText(joins, likes))) <==> joins != []
  {
    var texts := FragmentTexts(joins, likes);
    forall i | 0 <= i < |texts| ensures Truthy(texts[i]) {
      match joins[i]
      case UserIn(ids) => assert |texts[i]| > 1;
      case _ =>
    }
    ImplodeTruthy(texts);
    var s := SelectorText(joins, likes);
    if Truthy(s) && |s| == 1 {
      assert QualifyInner(s) == s;
    }
  }

  /** The user's id is read back from the parameters built for the request. */
  lemma UserIdFromParams(course: Course, siteId: int, req: LogRequest, groupId: int)
    ensures UserIdParam(Params(course, siteId, req, groupId)) == req.user
  {
    UserFilter(course, siteId, req, groupId, []);
  }

  /**
   * The generic path: with no fragment the condition is empty, and then not even the
   * positive-time condition is added; otherwise it is " AND " followed by the fragments,
   * each moved to the inner alias, joined by " AND ", followed by the positive-time
   * condition when no user is given. No reference to the outer alias remains.
   */
  lemma OtherDbClauses(course: Course, siteId: int, req: LogRequest, groupId: int, members: seq<int>, likes: LikeSql)
    requires SoundLikes(likes)
    ensures var joins := Predicates(course, siteId, req, groupId, members);
      var c := GetLogsClauses(SelectorText(joins, likes), Params(course, siteId, req, groupId), OtherDb);
      var inner := Implode(And, QualifyAll(FragmentTexts(joins, likes)));
      && (joins == [] ==> c.select == "")
      && (joins != [] ==> c.select == " AND " + inner + (if req.user == 0 then OtherPositiveTime else ""))
      && !RefersToOuter(inner)
      && (c.userIdSelect == UserIdClause <==> req.user != 0)
      && (req.user == 0 ==> c.userIdSelect == "")
  {
    var joins := Predicates(course, siteId, req, groupId, members);
    var texts := FragmentTexts(joins, likes);
    UserIdFromParams(course, siteId, req, groupId);
    SelectorTruthy(joins, likes);
    QualifyImplode(texts);
    QualifyInnerNoOuter(SelectorText(joins, likes));
    if joins == [] {
      assert SelectorText(joins, likes) == "";
    }
  }

  /**
   * The mysqli path: the condition is "WHERE " followed by the fragments and, when no
   * user is given, the positive-time test, all joined by " AND "; with neither there is
   * no condition at all. The user-id condition is produced exactly when a user is given.
   */
  lemma MysqliClauses(course: Course, siteId: int, req: LogRequest, groupId: int, members: seq<int>, likes: LikeSql)
    requires SoundLikes(likes)
    ensures var joins := Predicates(course, siteId, req, groupId, members);
      var c := GetLogsClauses(SelectorText(joins, likes), Params(course, siteId, req, groupId), Mysqli);
      var conds := FragmentTexts(joins, likes) + (if req.user == 0 then [MysqliPositiveTest] else []);
      && (conds == [] ==> c.select == "")
      && (conds != [] ==> c.select == "WHERE " + Implode(And, conds))
      && (c.userIdSelect == UserIdClause <==> req.user != 0)
  {
    var joins := Predicates(course, siteId, req, groupId, members);
    UserIdFromParams(course, siteId, req, groupId);
    SelectorTruthy(joins, likes);
    MysqliJoinedTexts(FragmentTexts(joins, likes), Params(course, siteId, req, groupId));
  }

  /** The mysqli condition of a selector joined from `texts`, which is truthy exactly when `texts` is not empty. */
  lemma MysqliJoinedTexts(texts: seq<string>, params: map<string, Param>)
    requires Truthy(Implode(And, texts)) <==> texts != []
    ensures var c := GetLogsClauses(Implode(And, texts), params, Mysqli);
      var conds := texts + (if UserIdParam(params) == 0 then [MysqliPositiveTest] else []);
      && (conds == [] ==> c.select == "")
      && (conds != [] ==> c.select == "WHERE " + Implode(And, conds))
      && (c.userIdSelect == UserIdClause <==> UserIdParam(params) != 0)
  {
    var select := Implode(And, texts);
    if texts == [] {
      assert select == "";
    } else if UserIdParam(params) == 0 {
      assert MysqliConditions(select, 0) == [select, MysqliPositiveTest];
      assert Implode(And, [select, MysqliPositiveTest]) == select + And + MysqliPositiveTest by {
        assert [select, MysqliPositiveTest][1..] == [MysqliPositiveTest];
      }
      ImplodeSnoc(texts, MysqliPositiveTest);
    } else {
      assert MysqliConditions(select, UserIdParam(params)) == [select];
      assert texts + [] == texts;
    }
  }

  /**
   * As written, a request with no fragment leaves the mysqli condition list empty after
   * "WHERE ", or opening with " AND " when no user is given: neither is valid SQL.
   */
  lemma MysqliEmptySelector(course: Course, siteId: int, req: LogRequest, groupId: int, members: seq<int>, likes: LikeSql)
    requires Predicates(course, siteId, req, groupId, members) == []
    ensures var c := GetLogsClausesAsWritten(SelectorText([], likes), Params(course, siteId, req, groupId), Mysqli);
      c.select == "WHERE " + (if req.user == 0 then " AND bt.timespent > 0 " else "")
  {
    UserIdFromParams(course, siteId, req, groupId);
    assert SelectorText([], likes) == "";
  }

  /** The front page with no filter at all: no fragment applies. */
  lemma SiteWideNoFragments()
    ensures Predicates(Course(1, NoGroups), 1, LogRequest(0, 0, 0, "", ModId(0), ""), 0, []) == []
  {
    var req := LogRequest(0, 0, 0, "", ModId(0), "");
    assert CoursePart(Course(1, NoGroups), 1, req) == [] && ModulePart(req) == [] && ActivityPart(req) == [];
    assert ActionPart(req) == [] && UserPart(req, 0, []) == [] && DatePart(req) == [];
  }

  /** Such a request exists: the front page, with no filter at all. */
  lemma MysqliSiteWideReport(likes: LikeSql)
    ensures var req := LogRequest(0, 0, 0, "", ModId(0), "");
      && Predicates(Course(1, NoGroups), 1, req, 0, []) == []
      && GetLogsClausesAsWritten(SelectorText([], likes), Params(Course(1, NoGroups), 1, req, 0), Mysqli).select
         == "WHERE " + " AND bt.timespent > 0 "
  {
    SiteWideNoFragments();
    MysqliEmptySelector(Course(1, NoGroups), 1, LogRequest(0, 0, 0, "", ModId(0), ""), 0, [], likes);
  }
}
