/** The datetime object, printed step by step and filled in place. */
module DatetimeCalls {
  import opened Datetime
  import opened DatetimeFormat

  class DatetimeCell {
    var fields: Fields

    constructor (d: Fields)
      ensures fields == d
    {
      fields := d;
    }

    /** `to_sql(false)` */
    method PrintSql() returns (str: string)
      ensures str == ToSql(fields) && Formatted(str, fields)
    {
      FormatIsExact(ToSql(fields), fields);
      str := "";
      if fields.withDate {
        var date := Print(fields.year);
        date := date + "-";
        date := date + PrintPadded(fields.month);
        date := date + "-";
        date := date + Print(fields.day);
        str := date;
        if fields.withTime {
          str := str + " ";
        }
      }
      assert str == if fields.withDate then DateText(fields) + if fields.withTime then " " else "" else "";
      if fields.withTime {
        var time := PrintPadded(fields.hour);
        time := time + ":";
        time := time + Print(fields.minute);
        time := time + ":";
        time := time + Print(Truncated(fields.sec));
        str := str + time;
      }
    }

    method ParseSql(sql: string)
      modifies this
      ensures fields == FromSql(sql, old(fields))
    {
      fields := fields.(withDate := '-' in sql, withTime := ':' in sql);
      var str := Stream(sql, false, false);
      if fields.withDate {
        var r := Read(str, fields.year);
        fields := fields.(year := r.1);
        r := Read(Ignore(r.0), fields.month);
        fields := fields.(month := r.1);
        r := Read(Ignore(r.0), fields.day);
        fields := fields.(day := r.1);
        str := Ignore(r.0);
      }
      if fields.withTime {
        var r := Read(str, fields.hour);
        fields := fields.(hour := r.1);
        r := Read(Ignore(r.0), fields.minute);
        fields := fields.(minute := r.1);
        var q := ReadSeconds(Ignore(r.0), fields.sec);
        fields := fields.(sec := q.1);
      }
    }
  }
}
