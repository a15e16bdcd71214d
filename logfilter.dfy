/**
 * The filter model behind block_timestat_build_logs_array: which group the report is
 * restricted to (with the per-session memo of the group chosen for each course), and
 * the ordered list of WHERE fragments with their named parameters.
 *
 * Fragments are kept as a datatype; their SQL text is given in module Selector.
 */
module LogFilter {
  import opened Wrappers

  /** The platform's group modes. */
  const NoGroups := 0
  const SeparateGroups := 1

  datatype Course = Course(id: int, groupMode: int)

  /** The activity filter: a course-module id (0 for none) or the 'site_errors' choice. */
  datatype ModSel = ModId(id: int) | SiteErrors

  /** The report filters as the caller passes them, after group resolution. */
  datatype LogRequest = LogRequest(
    user: int,
    dateFrom: int,
    dateTo: int,
    modName: string,
    modId: ModSel,
    modAction: string)

  datatype Param = IntParam(i: int) | StrParam(s: string)

  datatype Fragment =
    | CourseEq                  // l.courseid = :courseid
    | ModuleEq                  // l.module = :modname
    | SiteErrorActions          // ( l.action='error' OR l.action='infected' )
    | ContextEq                 // l.contextinstanceid = :modid
    | ActionLike(notLike: bool) // case-insensitive (NOT) LIKE of l.action against :modaction
    | UserIn(ids: seq<int>)     // l.userid IN (ids)
    | NoUser                    // l.userid = 0, which no row satisfies
    | DateRange                 // l.timecreated > :date AND l.timecreated < :enddate

  /** PHP truthiness of a string: neither "" nor "0". */
  predicate Truthy(s: string) {
    s != "" && s != "0"
  }

  /** PHP 8 `$modid != 0`: an id compares numerically, 'site_errors' is never equal to 0. */
  predicate ModIdNonZero(m: ModSel) {
    m.SiteErrors? || m.id != 0
  }

  // ---------------------------------------------------------------------------
  // Group resolution

  /** The group the report is restricted to, and the session memo afterwards. */
  datatype GroupChoice = GroupChoice(group: int, memo: map<int, int>)

  /**
   * Group resolution. Under separate groups, a user who cannot manage groups sees the
   * group remembered for the course, else the first of the user's own groups (which is
   * then remembered), else no group. With no group mode there is no group; otherwise
   * the caller's choice stands. `userGroups` is what the platform's group lookup returns
   * for the course and the user: None when it returns no array.
   */
  function ChooseGroup(memo: map<int, int>, course: Course, canManageGroups: bool,
                        userGroups: Option<seq<int>>, requested: int): (r: GroupChoice)
    ensures forall k :: k in memo ==> k in r.memo && r.memo[k] == memo[k]
    ensures forall k :: k in r.memo ==> k in memo || k == course.id
  {
    if course.groupMode == SeparateGroups && !canManageGroups then
      if course.id in memo then GroupChoice(memo[course.id], memo)
      else if userGroups.Some? && |userGroups.value| > 0 then
        GroupChoice(userGroups.value[0], memo[course.id := userGroups.value[0]])
      else GroupChoice(0, memo)
    else if course.groupMode == NoGroups then GroupChoice(0, memo)
    else GroupChoice(requested, memo)
  }

  /**
   * What group resolution promises: only the entry of this course may change, and only
   * by being added; a restricted user gets the remembered group when there is one and
   * their first group otherwise; without group mode there is no group filter; in the
   * remaining modes the caller's group is kept.
   */
  lemma ChooseGroupSpec(memo: map<int, int>, course: Course, canManageGroups: bool,
                         userGroups: Option<seq<int>>, requested: int)
    ensures var r := ChooseGroup(memo, course, canManageGroups, userGroups, requested);
      && (forall k :: k != course.id ==> (k in r.memo <==> k in memo) && (k in memo ==> r.memo[k] == memo[k]))
      && (course.id in memo ==> course.id in r.memo && r.memo[course.id] == memo[course.id])
      && (course.id in r.memo && course.id !in memo ==> r.memo[course.id] == r.group)
      && (course.groupMode == SeparateGroups && !canManageGroups ==>
            if course.id in memo then r.group == memo[course.id]
            else if userGroups.Some? && userGroups.value != [] then
              r.group == userGroups.value[0] && course.id in r.memo
            else r.group == 0 && r.memo == memo)
      && (course.groupMode == NoGroups ==> r.group == 0 && r.memo == memo)
      && (course.groupMode != NoGroups && (course.groupMode != SeparateGroups || canManageGroups) ==>
            r.group == requested && r.memo == memo)
  {
  }

  /**
   * The memo makes the choice stable: once a restricted user's group is remembered for
   * a course, later resolutions return it whatever the group lookup says then, and
   * resolving again with the updated memo changes nothing.
   */
  lemma ChooseGroupSticky(memo: map<int, int>, course: Course, canManageGroups: bool,
                           userGroups: Option<seq<int>>, laterGroups: Option<seq<int>>, requested: int)
    ensures var r := ChooseGroup(memo, course, canManageGroups, userGroups, requested);
      && ChooseGroup(r.memo, course, canManageGroups, userGroups, requested) == r
      && (course.groupMode == SeparateGroups && !canManageGroups && course.id in r.memo ==>
            ChooseGroup(r.memo, course, canManageGroups, laterGroups, requested) == r)
  {
  }

  // ---------------------------------------------------------------------------
  // Predicate list

  /** The LIKE pattern bound to :modaction: the action (without a leading '-') wrapped in '%'. */
  function ActionPattern(action: string): (p: string)
    requires action != []
    ensures |p| >= 2 && p[0] == '%' && p[|p| - 1] == '%'
    ensures action[0] == '-' ==> p[1..|p| - 1] == action[1..]
    ensures action[0] != '-' ==> p[1..|p| - 1] == action
  {
    if action[0] == '-' then "%" + action[1..] + "%" else "%" + action + "%"
  }

  /** Order of fragment kinds in the list. */
  function Rank(f: Fragment): nat {
    match f
    case CourseEq => 0
    case ModuleEq => 1
    case SiteErrorActions => 2
    case ContextEq => 2
    case ActionLike(_) => 3
    case UserIn(_) => 4
    case NoUser => 4
    case DateRange => 5
  }

  /** The named parameters a fragment refers to. */
  function Placeholders(f: Fragment): set<string> {
    match f
    case CourseEq => {"courseid"}
    case ModuleEq => {"modname"}
    case ContextEq => {"modid"}
    case ActionLike(_) => {"modaction"}
    case DateRange => {"date", "enddate"}
    case _ => {}
  }

  function AllPlaceholders(joins: seq<Fragment>): set<string> {
    if joins == [] then {} else Placeholders(joins[0]) + AllPlaceholders(joins[1..])
  }

  function When<T>(c: bool, xs: seq<T>): seq<T> {
    if c then xs else []
  }

  /** Whether the group's members restrict the users: a group is set and no user is. */
  predicate GroupFilterApplies(req: LogRequest, groupId: int) {
    groupId != 0 && req.user == 0
  }

  /** The course test: skipped only for the site course with no activity chosen. */
  function CoursePart(course: Course, siteId: int, req: LogRequest): seq<Fragment> {
    When(course.id != siteId || ModIdNonZero(req.modId), [CourseEq])
  }

  function ModulePart(req: LogRequest): seq<Fragment> {
    When(Truthy(req.modName), [ModuleEq])
  }

  function ActivityPart(req: LogRequest): seq<Fragment> {
    match req.modId
    case SiteErrors => [SiteErrorActions]
    case ModId(id) => When(id != 0, [ContextEq])
  }

  function ActionPart(req: LogRequest): seq<Fragment> {
    When(Truthy(req.modAction), [ActionLike(Truthy(req.modAction) && req.modAction[0] == '-')])
  }

  function UserPart(req: LogRequest, groupId: int, members: seq<int>): seq<Fragment> {
    When(GroupFilterApplies(req, groupId), if members != [] then [UserIn(members)] else [NoUser])
  }

  function DatePart(req: LogRequest): seq<Fragment> {
    When(req.dateFrom != 0, [DateRange])
  }

  /**
   * The fragments of the WHERE clause, in order: course, module name, site errors or
   * activity, action, users, date. `members` are the ids of the members of group
   * `groupId`, consulted only when the group filter applies.
   */
  function Predicates(course: Course, siteId: int, req: LogRequest, groupId: int, members: seq<int>): seq<Fragment> {
    CoursePart(course, siteId, req) + ModulePart(req) + ActivityPart(req) + ActionPart(req)
    + UserPart(req, groupId, members) + DatePart(req)
  }

  function CourseParams(course: Course, siteId: int, req: LogRequest): map<string, Param> {
    if course.id != siteId || ModIdNonZero(req.modId) then map["courseid" := IntParam(course.id)] else map[]
  }

  function ModuleParams(req: LogRequest): map<string, Param> {
    if Truthy(req.modName) then map["modname" := StrParam(req.modName)] else map[]
  }

  function ActivityParams(req: LogRequest): map<string, Param> {
    if req.modId.ModId? && req.modId.id != 0 then map["modid" := IntParam(req.modId.id)] else map[]
  }

  function ActionParams(req: LogRequest): map<string, Param> {
    if Truthy(req.modAction) then map["modaction" := StrParam(ActionPattern(req.modAction))] else map[]
  }

  function UserParams(req: LogRequest, groupId: int): map<string, Param> {
    if !GroupFilterApplies(req, groupId) && req.user != 0 then map["userid" := IntParam(req.user)] else map[]
  }

  function DateParams(req: LogRequest): map<string, Param> {
    if req.dateFrom != 0 then map["date" := IntParam(req.dateFrom), "enddate" := IntParam(req.dateTo)] else map[]
  }

  /** The named parameters bound for the query; the parts have disjoint keys. */
  function Params(course: Course, siteId: int, req: LogRequest, groupId: int): map<string, Param> {
    CourseParams(course, siteId, req) + ModuleParams(req) + ActivityParams(req) + ActionParams(req)
    + UserParams(req, groupId) + DateParams(req)
  }

  /**
   * The body of block_timestat_build_logs_array after group resolution: fragments and
   * parameters are appended step by step, one helper per filter.
   */
  method BuildPredicates(course: Course, siteId: int, req: LogRequest, groupId: int, members: seq<int>)
    returns (joins: seq<Fragment>, params: map<string, Param>)
    ensures joins == Predicates(course, siteId, req, groupId, members)
    ensures params == Params(course, siteId, req, groupId)
  {
    joins, params := [], map[];
    if course.id != siteId || ModIdNonZero(req.modId) {
      joins := joins + [CourseEq];
      params := params["courseid" := IntParam(course.id)];
    }
    if Truthy(req.modName) {
      joins := joins + [ModuleEq];
      params := params["modname" := StrParam(req.modName)];
    }
    assert joins == CoursePart(course, siteId, req) + ModulePart(req);
    assert params == CourseParams(course, siteId, req) + ModuleParams(req);
    joins, params := AddActivity(joins, params, req);
    joins, params := AddAction(joins, params, req);
    joins, params := AddUsers(joins, params, req, groupId, members);
    joins, params := AddDate(joins, params, req);
  }

  method AddActivity(joins: seq<Fragment>, params: map<string, Param>, req: LogRequest)
    returns (joins': seq<Fragment>, params': map<string, Param>)
    ensures joins' == joins + ActivityPart(req) && params' == params + ActivityParams(req)
  {
    joins', params' := joins, params;
    if req.modId == SiteErrors {
      joins' := joins' + [SiteErrorActions];
    } else if req.modId.id != 0 {
      joins' := joins' + [ContextEq];
      params' := params'["modid" := IntParam(req.modId.id)];
    }
  }

  method AddAction(joins: seq<Fragment>, params: map<string, Param>, req: LogRequest)
    returns (joins': seq<Fragment>, params': map<string, Param>)
    ensures joins' == joins + ActionPart(req) && params' == params + ActionParams(req)
  {
    joins', params' := joins, params;
    if Truthy(req.modAction) {
      var firstLetter := req.modAction[0];
      if firstLetter == '-' {
        joins' := joins' + [ActionLike(true)];
        params' := params'["modaction" := StrParam("%" + req.modAction[1..] + "%")];
      } else {
        joins' := joins' + [ActionLike(false)];
        params' := params'["modaction" := StrParam("%" + req.modAction + "%")];
      }
    }
  }

  method AddUsers(joins: seq<Fragment>, params: map<string, Param>, req: LogRequest, groupId: int, members: seq<int>)
    returns (joins': seq<Fragment>, params': map<string, Param>)
    ensures joins' == joins + UserPart(req, groupId, members) && params' == params + UserParams(req, groupId)
  {
    joins', params' := joins, params;
    if groupId != 0 && req.user == 0 {
      if members != [] {
        joins' := joins' + [UserIn(members)];
      } else {
        joins' := joins' + [NoUser];
      }
    } else if req.user != 0 {
      params' := params'["userid" := IntParam(req.user)];
    }
  }

  method AddDate(joins: seq<Fragment>, params: map<string, Param>, req: LogRequest)
    returns (joins': seq<Fragment>, params': map<string, Param>)
    ensures joins' == joins + DatePart(req) && params' == params + DateParams(req)
  {
    joins', params' := joins, params;
    if req.dateFrom != 0 {
      joins' := joins' + [DateRange];
      params' := params'["date" := IntParam(req.dateFrom)];
      params' := params'["enddate" := IntParam(req.dateTo)];
      UpdateTwice(params, "date", IntParam(req.dateFrom), "enddate", IntParam(req.dateTo));
    } else {
      assert params + DateParams(req) == params;
    }
  }

  lemma UpdateTwice<K, V>(m: map<K, V>, k1: K, v1: V, k2: K, v2: V)
    requires k1 != k2
    ensures m[k1 := v1][k2 := v2] == m + map[k1 := v1, k2 := v2]
  {
  }

  // ---------------------------------------------------------------------------
  // Properties of the predicate list

  /** The fragment kinds appear in the fixed order, each at most once. */
  lemma PredicatesOrdered(course: Course, siteId: int, req: LogRequest, groupId: int, members: seq<int>)
    ensures var joins := Predicates(course, siteId, req, groupId, members);
      forall i, j :: 0 <= i < j < |joins| ==> Rank(joins[i]) < Rank(joins[j])
  {
    var c, n, a := CoursePart(course, siteId, req), ModulePart(req), ActivityPart(req);
    var l, u, d := ActionPart(req), UserPart(req, groupId, members), DatePart(req);
    OrderedAppend(c, n, 0, 0, 1);
    OrderedAppend(c + n, a, 0, 1, 2);
    OrderedAppend(c + n + a, l, 0, 2, 3);
    OrderedAppend(c + n + a + l, u, 0, 3, 4);
    OrderedAppend(c + n + a + l + u, d, 0, 4, 5);
  }

  predicate Ordered(xs: seq<Fragment>) {
    forall i, j :: 0 <= i < j < |xs| ==> Rank(xs[i]) < Rank(xs[j])
  }

  predicate RanksIn(xs: seq<Fragment>, lo: nat, hi: nat) {
    forall i :: 0 <= i < |xs| ==> lo <= Rank(xs[i]) <= hi
  }

  lemma OrderedAppend(a: seq<Fragment>, b: seq<Fragment>, lo: nat, mid: nat, hi: nat)
    requires lo <= mid < hi
    requires Ordered(a) && RanksIn(a, lo, mid)
    requires |b| <= 1 && RanksIn(b, mid + 1, hi)
    ensures Ordered(a + b) && RanksIn(a + b, lo, hi)
  {
    forall i | 0 <= i < |a + b|
      ensures (a + b)[i] == if i < |a| then a[i] else b[i - |a|]
    {
    }
  }

  /**
   * Which fragments are present: the course test unless the course is the site and no
   * activity is chosen; the module name when given; the error/infected test for
   * 'site_errors' and the context test for a non-zero activity id; the date range when
   * a start date is given.
   */
  lemma PredicatesPresence(course: Course, siteId: int, req: LogRequest, groupId: int, members: seq<int>)
    ensures var joins := Predicates(course, siteId, req, groupId, members);
      && (CourseEq in joins <==> course.id != siteId || ModIdNonZero(req.modId))
      && (ModuleEq in joins <==> Truthy(req.modName))
      && (SiteErrorActions in joins <==> req.modId == SiteErrors)
      && (ContextEq in joins <==> req.modId.ModId? && req.modId.id != 0)
      && !(SiteErrorActions in joins && ContextEq in joins)
      && (DateRange in joins <==> req.dateFrom != 0)
  {
    var c, n, a := CoursePart(course, siteId, req), ModulePart(req), ActivityPart(req);
    var l, u, d := ActionPart(req), UserPart(req, groupId, members), DatePart(req);
    InParts(c, n, a, l, u, d, CourseEq);
    InParts(c, n, a, l, u, d, ModuleEq);
    InParts(c, n, a, l, u, d, SiteErrorActions);
    InParts(c, n, a, l, u, d, ContextEq);
    InParts(c, n, a, l, u, d, DateRange);
  }

  /** Membership in the six parts joined. */
  lemma InParts(c: seq<Fragment>, n: seq<Fragment>, a: seq<Fragment>, l: seq<Fragment>, u: seq<Fragment>, d: seq<Fragment>, x: Fragment)
    ensures x in c + n + a + l + u + d <==> x in c || x in n || x in a || x in l || x in u || x in d
  {
  }

  /** An item absent from the outer lists is in the concatenation exactly when it is in the middle one. */
  lemma InMiddle<T>(a: seq<T>, b: seq<T>, c: seq<T>, x: T)
    requires x !in a && x !in c
    ensures x in a + b + c <==> x in b
  {
  }

  /** A key absent from the outer maps is bound in the union exactly when the middle map binds it, to its value. */
  lemma KeyInMiddle(a: map<string, Param>, b: map<string, Param>, c: map<string, Param>, k: string)
    requires k !in a && k !in c
    ensures k in a + b + c <==> k in b
    ensures k in b ==> (a + b + c)[k] == b[k]
  {
  }

  /**
   * The action filter: a leading '-' gives a NOT LIKE on the rest of the action, any
   * other non-empty action a LIKE on the whole action, both wrapped in '%'; an empty
   * action gives no fragment and no parameter.
   */
  lemma ActionFilter(course: Course, siteId: int, req: LogRequest, groupId: int, members: seq<int>)
    ensures var joins := Predicates(course, siteId, req, groupId, members);
      var params := Params(course, siteId, req, groupId);
      && (ActionLike(true) in joins <==> Truthy(req.modAction) && req.modAction[0] == '-')
      && (ActionLike(false) in joins <==> Truthy(req.modAction) && req.modAction[0] != '-')
      && ("modaction" in params <==> Truthy(req.modAction))
      && (Truthy(req.modAction) && req.modAction[0] == '-' ==>
            params["modaction"] == StrParam("%" + req.modAction[1..] + "%"))
      && (Truthy(req.modAction) && req.modAction[0] != '-' ==>
            params["modaction"] == StrParam("%" + req.modAction + "%"))
  {
    var c, n, a := CoursePart(course, siteId, req), ModulePart(req), ActivityPart(req);
    var l, u, d := ActionPart(req), UserPart(req, groupId, members), DatePart(req);
    assert c + n + a + l + u + d == (c + n + a) + l + (u + d);
    InMiddle(c + n + a, l, u + d, ActionLike(true));
    InMiddle(c + n + a, l, u + d, ActionLike(false));
    var pc, pn, pa := CourseParams(course, siteId, req), ModuleParams(req), ActivityParams(req);
    var pl, pu, pd := ActionParams(req), UserParams(req, groupId), DateParams(req);
    assert pc + pn + pa + pl + pu + pd == (pc + pn + pa) + pl + (pu + pd);
    KeyInMiddle(pc + pn + pa, pl, pu + pd, "modaction");
  }

  /**
   * The user filter: with a group and no user, the group's members restrict the rows,
   * and an empty group adds the always-false test instead of dropping the filter; a
   * given user adds no fragment and only binds :userid.
   */
  lemma UserFilter(course: Course, siteId: int, req: LogRequest, groupId: int, members: seq<int>)
    ensures var joins := Predicates(course, siteId, req, groupId, members);
      var params := Params(course, siteId, req, groupId);
      && (UserIn(members) in joins <==> GroupFilterApplies(req, groupId) && members != [])
      && (NoUser in joins <==> GroupFilterApplies(req, groupId) && members == [])
      && (forall ids :: UserIn(ids) in joins ==> ids == members && ids != [])
      && ("userid" in params <==> req.user != 0)
      && (req.user != 0 ==> params["userid"] == IntParam(req.user) && NoUser !in joins
                            && forall ids :: UserIn(ids) !in joins)
  {
    var others := CoursePart(course, siteId, req) + ModulePart(req) + ActivityPart(req) + ActionPart(req);
    var users, date := UserPart(req, groupId, members), DatePart(req);
    assert Predicates(course, siteId, req, groupId, members) == others + users + date;
    assert UsersFree(others) && UsersFree(date);
    UserFragmentsIn(others, users, date);
    var before := CourseParams(course, siteId, req) + ModuleParams(req) + ActivityParams(req) + ActionParams(req);
    assert "userid" !in before && "userid" !in DateParams(req);
    assert Params(course, siteId, req, groupId) == before + UserParams(req, groupId) + DateParams(req);
  }

  /** A list with no user fragment. */
  predicate UsersFree(xs: seq<Fragment>) {
    forall i :: 0 <= i < |xs| ==> !xs[i].UserIn? && !xs[i].NoUser?
  }

  /** Between two lists without user fragments, the user fragments are those of the middle one. */
  lemma UserFragmentsIn(a: seq<Fragment>, b: seq<Fragment>, c: seq<Fragment>)
    requires UsersFree(a) && UsersFree(c)
    ensures NoUser in a + b + c <==> NoUser in b
    ensures forall ids :: UserIn(ids) in a + b + c <==> UserIn(ids) in b
  {
  }

  /**
   * The date filter: one fragment with strict bounds, :date bound to the start and
   * :enddate to the given end date (not the start plus a day); nothing without a start.
   */
  lemma DateFilter(course: Course, siteId: int, req: LogRequest, groupId: int, members: seq<int>)
    ensures var params := Params(course, siteId, req, groupId);
      && ("date" in params <==> req.dateFrom != 0)
      && ("enddate" in params <==> req.dateFrom != 0)
      && (req.dateFrom != 0 ==> params["date"] == IntParam(req.dateFrom) && params["enddate"] == IntParam(req.dateTo))
  {
    var pc, pn, pa := CourseParams(course, siteId, req), ModuleParams(req), ActivityParams(req);
    var pl, pu, pd := ActionParams(req), UserParams(req, groupId), DateParams(req);
    var before := pc + pn + pa + pl + pu;
    assert Params(course, siteId, req, groupId) == before + pd + map[];
    KeyInMiddle(before, pd, map[], "date");
    KeyInMiddle(before, pd, map[], "enddate");
  }

  lemma {:induction false} AllPlaceholdersConcat(a: seq<Fragment>, b: seq<Fragment>)
    ensures AllPlaceholders(a + b) == AllPlaceholders(a) + AllPlaceholders(b)
  {
    if a == [] {
      assert a + b == b;
    } else {
      assert (a + b)[0] == a[0];
      assert (a + b)[1..] == a[1..] + b;
      AllPlaceholdersConcat(a[1..], b);
    }
  }

  /**
   * Every value reaches the query as a bound parameter: each placeholder a fragment uses
   * is bound, and the only parameter no fragment uses is :userid, bound exactly when a
   * user is given (the selector assembly refers to it).
   */
  lemma ParamsMatchPlaceholders(course: Course, siteId: int, req: LogRequest, groupId: int, members: seq<int>)
    ensures var joins := Predicates(course, siteId, req, groupId, members);
      Params(course, siteId, req, groupId).Keys
        == AllPlaceholders(joins) + (if req.user != 0 then {"userid"} else {})
  {
    var c, n, a := CoursePart(course, siteId, req), ModulePart(req), ActivityPart(req);
    var l, u, d := ActionPart(req), UserPart(req, groupId, members), DatePart(req);
    AllPlaceholdersConcat(c, n);
    AllPlaceholdersConcat(c + n, a);
    AllPlaceholdersConcat(c + n + a, l);
    AllPlaceholdersConcat(c + n + a + l, u);
    AllPlaceholdersConcat(c + n + a + l + u, d);
    PartsPlaceholders(course, siteId, req, groupId, members);
  }

  /** Each filter binds exactly the parameters its own fragment uses; the user filter binds :userid. */
  lemma PartsPlaceholders(course: Course, siteId: int, req: LogRequest, groupId: int, members: seq<int>)
    ensures AllPlaceholders(CoursePart(course, siteId, req)) == CourseParams(course, siteId, req).Keys
    ensures AllPlaceholders(ModulePart(req)) == ModuleParams(req).Keys
    ensures AllPlaceholders(ActivityPart(req)) == ActivityParams(req).Keys
    ensures AllPlaceholders(ActionPart(req)) == ActionParams(req).Keys
    ensures AllPlaceholders(UserPart(req, groupId, members)) == {}
    ensures UserParams(req, groupId).Keys == if req.user != 0 then {"userid"} else {}
    ensures AllPlaceholders(DatePart(req)) == DateParams(req).Keys
  {
    CourseModulePlaceholders(course, siteId, req);
    ActivityPlaceholders(req);
    ActionPlaceholders(req);
    UserPlaceholders(req, groupId, members);
    DatePlaceholders(req);
  }

  lemma SinglePlaceholders(f: Fragment)
    ensures AllPlaceholders([f]) == Placeholders(f)
  {
    assert [f][1..] == [];
  }

  lemma CourseModulePlaceholders(course: Course, siteId: int, req: LogRequest)
    ensures AllPlaceholders(CoursePart(course, siteId, req)) == CourseParams(course, siteId, req).Keys
    ensures AllPlaceholders(ModulePart(req)) == ModuleParams(req).Keys
  {
    SinglePlaceholders(CourseEq);
    SinglePlaceholders(ModuleEq);
  }

  lemma ActivityPlaceholders(req: LogRequest)
    ensures AllPlaceholders(ActivityPart(req)) == ActivityParams(req).Keys
  {
    SinglePlaceholders(SiteErrorActions);
    SinglePlaceholders(ContextEq);
  }

  lemma ActionPlaceholders(req: LogRequest)
    ensures AllPlaceholders(ActionPart(req)) == ActionParams(req).Keys
  {
    if Truthy(req.modAction) {
      SinglePlaceholders(ActionLike(req.modAction[0] == '-'));
    }
  }

  lemma UserPlaceholders(req: LogRequest, groupId: int, members: seq<int>)
    ensures AllPlaceholders(UserPart(req, groupId, members)) == {}
    ensures UserParams(req, groupId).Keys == if req.user != 0 then {"userid"} else {}
  {
    SinglePlaceholders(UserIn(members));
    SinglePlaceholders(NoUser);
  }

  lemma DatePlaceholders(req: LogRequest)
    ensures AllPlaceholders(DatePart(req)) == DateParams(req).Keys
  {
    SinglePlaceholders(DateRange);
  }
}
