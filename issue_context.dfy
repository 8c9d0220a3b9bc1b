/**
 * The client-side issue store of the second frontend: an in-memory list of issue objects seeded
 * with four examples, a way to add one at the front, and the dashboard's counts.
 */
module IssueContext {
  import opened Listing
  import opened Text
  import opened Js

  /** A plain JavaScript object: property names to values. */
  type Record = map<string, JsValue>

  const Pending := JsString("Pending")
  const Resolved := JsString("Resolved")

  /** `{ total, pending, resolved }`. */
  datatype IssueStats = IssueStats(total: nat, pending: nat, resolved: nat)

  function SeedIssue(id: int, title: string, location: string, status: string, date: string, priority: string, description: string): Record {
    map["id" := JsNumber(id), "title" := JsString(title), "location" := JsString(location),
        "status" := JsString(status), "date" := JsString(date), "priority" := JsString(priority),
        "description" := JsString(description)]
  }

  /** The four issues the store starts with. */
  function Seed(): seq<Record> {
    [ SeedIssue(1, "Fan not working", "Room 302", "Pending", "2024-03-10", "High",
                "The ceiling fan in my room is making a loud noise and rotating very slowly."),
      SeedIssue(2, "Water leakage", "Bathroom 2 (2nd Floor)", "Resolved", "2024-03-08", "Medium",
                "Continuous water dripping from the tap."),
      SeedIssue(3, "Broken Window Latch", "Room 302", "In Progress", "2024-03-05", "Low",
                "Window latch is broken, unable to close window properly."),
      SeedIssue(4, "Internet slow", "Room 302", "Pending", "2024-03-12", "Medium",
                "Wi-Fi signal is very weak in this corner of the room.") ]
  }

  /**
   * `{ id: Date.now(), status: 'Pending', date: <today>, priority: 'Medium', ...newIssue }`: the
   * defaults, each overridden by a property `newIssue` supplies; `today` is the date part of the
   * current time's ISO string.
   */
  function WithDefaults(newIssue: Record, now: int, isoNow: string): (r: Record)
    ensures r.Keys == newIssue.Keys + {"id", "status", "date", "priority"}
    ensures forall k :: k in newIssue ==> r[k] == newIssue[k]
    ensures "id" !in newIssue ==> r["id"] == JsNumber(now)
    ensures "status" !in newIssue ==> r["status"] == Pending
    ensures "date" !in newIssue ==> r["date"] == JsString(Split(isoNow, 'T')[0])
    ensures "priority" !in newIssue ==> r["priority"] == JsString("Medium")
  {
    var defaults := map["id" := JsNumber(now), "status" := Pending,
                        "date" := JsString(Split(isoNow, 'T')[0]), "priority" := JsString("Medium")];
    defaults + newIssue
  }

  /** `i.status === s`: an object without the property has `undefined` there, which equals no string. */
  function HasStatus(s: JsValue): Record -> bool {
    (i: Record) => "status" in i && i["status"] == s
  }

  /** `getStats`, over a list of issue objects. */
  function Stats(issues: seq<Record>): (s: IssueStats)
    ensures s.total == |issues|
    ensures s.pending + s.resolved <= s.total
    ensures s.pending == Count(issues, HasStatus(Pending)) && s.resolved == Count(issues, HasStatus(Resolved))
  {
    CountDisjoint(issues, HasStatus(Pending), HasStatus(Resolved));
    IssueStats(|issues|, Count(issues, HasStatus(Pending)), Count(issues, HasStatus(Resolved)))
  }

  /** Adding an issue raises the total by one, and the pending count by one exactly when it is pending. */
  lemma {:induction false} AddIssueStats(issues: seq<Record>, newIssue: Record, now: int, isoNow: string)
    ensures var before := Stats(issues);
            var after := Stats([WithDefaults(newIssue, now, isoNow)] + issues);
            var status := if "status" in newIssue then newIssue["status"] else Pending;
            && after.total == before.total + 1
            && after.pending == before.pending + (if status == Pending then 1 else 0)
            && after.resolved == before.resolved + (if status == Resolved then 1 else 0)
  {
    var x := WithDefaults(newIssue, now, isoNow);
    SelectAppend([x], issues, HasStatus(Pending));
    SelectAppend([x], issues, HasStatus(Resolved));
    assert [x][1..] == [];
  }

  /** The seeded store shows 4 issues, 2 pending and 1 resolved. */
  lemma SeedStats()
    ensures Stats(Seed()) == IssueStats(4, 2, 1)
  {
    var s := Seed();
    assert s[1..][1..][1..][1..] == [];
  }

  /** `IssueProvider`: the `issues` state and the operations the context hands out. */
  class IssueProvider {
    var issues: seq<Record>

    constructor ()
      ensures issues == Seed()
    {
      issues := Seed();
    }

    /**
     * `addIssue`: the new issue, with its defaults filled in, goes to the front; the earlier issues
     * follow in their order.
     */
    method AddIssue(newIssue: Record, now: int, isoNow: string)
      modifies this
      ensures |issues| == |old(issues)| + 1
      ensures issues[0] == WithDefaults(newIssue, now, isoNow)
      ensures issues[1..] == old(issues)
    {
      issues := [WithDefaults(newIssue, now, isoNow)] + issues;
    }

    /** `getStats` on the current state. */
    function GetStats(): (s: IssueStats)
      reads this
      ensures s.total == |issues| && s.pending + s.resolved <= s.total
    {
      Stats(issues)
    }
  }
}
