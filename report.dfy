/**
 * block_timestat_build_logs_array and block_timestat_get_logs put together: the
 * session's group memo, the filter, the selector post-processing and the query run.
 * The database, the group lookups and the capability check are inputs.
 */
module Report {
  import opened Wrappers
  import opened LogFilter
  import opened Selector

  /** One aggregated row: a user and the seconds they spent. */
  datatype LogRow = LogRow(userId: int, timeSpent: int)

  /** The result array: the rows and their count. */
  datatype LogsResult = LogsResult(logs: seq<LogRow>, totalCount: nat)

  /** The database as seen by the report: the rows a query with these clauses and parameters returns. */
  type Database = (Clauses, map<string, Param>) -> seq<LogRow>

  /**
   * block_timestat_get_logs: the clauses are assembled from the selector and the
   * parameters, the query is run, and the total count is the number of rows returned.
   */
  method GetLogs(select: string, params: map<string, Param>, dialect: Dialect, db: Database)
    returns (logs: seq<LogRow>, totalCount: nat)
    ensures logs == db(GetLogsClauses(select, params, dialect), params)
    ensures totalCount == |logs|
  {
    var clauses := GetLogsClauses(select, params, dialect);
    logs := db(clauses, params);
    totalCount := |logs|;
  }

  /** The user's session, holding the group last chosen for each course. */
  class Session {
    var currentGroup: map<int, int>

    constructor ()
      ensures currentGroup == map[]
    {
      currentGroup := map[];
    }

    /**
     * The group handling at the start of block_timestat_build_logs_array.
     * `canManageGroups` is the capability check against the course context and
     * `userGroups` the platform's list of the user's groups in the course.
     */
    method ResolveGroup(course: Course, canManageGroups: bool, userGroups: Option<seq<int>>, requested: int)
      returns (groupId: int)
      modifies this
      ensures GroupChoice(groupId, currentGroup)
              == ChooseGroup(old(currentGroup), course, canManageGroups, userGroups, requested)
    {
      groupId := requested;
      if course.groupMode == SeparateGroups && !canManageGroups {
        if course.id in currentGroup {
          groupId := currentGroup[course.id];
        } else {
          match userGroups
          case Some(groups) =>
            if groups != [] {
              groupId := groups[0];
              currentGroup := currentGroup[course.id := groupId];
            } else {
              groupId := 0;
            }
          case None =>
            groupId := 0;
        }
      } else if course.groupMode == NoGroups {
        groupId := 0;
      }
    }

    /**
     * block_timestat_build_logs_array: resolves the group, builds the fragments and
     * parameters (asking for the group's members only when the group filter applies),
     * and runs the query on the joined selector.
     */
    method BuildLogsArray(course: Course, siteId: int, req: LogRequest, requestedGroup: int,
                          canManageGroups: bool, userGroups: Option<seq<int>>,
                          groupMembers: int -> seq<int>, likes: LikeSql, dialect: Dialect, db: Database)
      returns (result: LogsResult)
      modifies this
      ensures var choice := ChooseGroup(old(currentGroup), course, canManageGroups, userGroups, requestedGroup);
        var joins := Predicates(course, siteId, req, choice.group, groupMembers(choice.group));
        var params := Params(course, siteId, req, choice.group);
        var rows := db(GetLogsClauses(SelectorText(joins, likes), params, dialect), params);
        && currentGroup == choice.memo
        && result == LogsResult(rows, |rows|)
    {
      var groupId := ResolveGroup(course, canManageGroups, userGroups, requestedGroup);
      var members := if groupId != 0 && req.user == 0 then groupMembers(groupId) else [];
      var joins, params := BuildPredicates(course, siteId, req, groupId, members);
      assert joins == Predicates(course, siteId, req, groupId, groupMembers(groupId));
      var select := SelectorText(joins, likes);
      var logs, totalCount := GetLogs(select, params, dialect, db);
      result := LogsResult(logs, totalCount);
    }
  }
}
