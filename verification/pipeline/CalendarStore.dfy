/** The calendar client's local tables: an entity change deletes a row or marks it for refetching. */
module CalendarStore {
  import opened PipelineTypes

  const CALENDAR := 21
  const SCHEDULE := 22
  const OPERATE_UPDATE := 2
  const OPERATE_DELETE := 3

  /** Each local table maps an id to its dirty flag. */
  datatype Tables = Tables(calendars: map<int, bool>, schedules: map<int, bool>)

  function Touch(rows: map<int, bool>, id: int, operate: int): map<int, bool> {
    if operate == OPERATE_DELETE then rows - {id}
    else if operate == OPERATE_UPDATE && id in rows then rows[id := true]
    else rows
  }

  function Handle(t: Tables, c: Change): Tables {
    if c.tpy == CALENDAR then t.(calendars := Touch(t.calendars, c.id, c.operate))
    else if c.tpy == SCHEDULE then t.(schedules := Touch(t.schedules, c.id, c.operate))
    else t
  }

  function HandleAll(t: Tables, changes: seq<Change>): Tables {
    if changes == [] then t
    else Handle(HandleAll(t, changes[..|changes| - 1]), changes[|changes| - 1])
  }

  class LocalStore {
    var calendars: map<int, bool>
    var schedules: map<int, bool>

    function Contents(): Tables
      reads this
    {
      Tables(calendars, schedules)
    }

    method CalendarRemoveLocal(id: int)
      modifies `calendars
      ensures calendars == old(calendars) - {id}
    {
      calendars := calendars - {id};
    }

    method ScheduleRemoveLocal(id: int)
      modifies `schedules
      ensures schedules == old(schedules) - {id}
    {
      schedules := schedules - {id};
    }

    method CalendarMarkDirty(id: int)
      modifies `calendars
      ensures calendars == if id in old(calendars) then old(calendars)[id := true] else old(calendars)
    {
      if id in calendars {
        calendars := calendars[id := true];
      }
    }

    method ScheduleMarkDirty(id: int)
      modifies `schedules
      ensures schedules == if id in old(schedules) then old(schedules)[id := true] else old(schedules)
    {
      if id in schedules {
        schedules := schedules[id := true];
      }
    }

    method HandleEntityChanged(changes: seq<Change>)
      modifies this
      ensures Contents() == HandleAll(old(Contents()), changes)
    {
      for n := 0 to |changes|
        invariant Contents() == HandleAll(old(Contents()), changes[..n])
      {
        var c := changes[n];
        assert changes[..n + 1][..n] == changes[..n];
        if c.operate == OPERATE_DELETE && c.tpy == CALENDAR {
          CalendarRemoveLocal(c.id);
        } else if c.operate == OPERATE_DELETE && c.tpy == SCHEDULE {
          ScheduleRemoveLocal(c.id);
        } else if c.operate == OPERATE_UPDATE && c.tpy == CALENDAR {
          CalendarMarkDirty(c.id);
        } else if c.operate == OPERATE_UPDATE && c.tpy == SCHEDULE {
          ScheduleMarkDirty(c.id);
        }
      }
      assert changes[..|changes|] == changes;
    }
  }
}
