/** CPE names as formatted strings: fields between unescaped colons (section 6.2 of NISTIR 7695). */
module Cpe {
  import opened Wrappers
  import opened Text

  datatype CpeError = NotCpe23 | IncompleteEscape | WrongFieldCount(count: nat)

  /** The fields still to come, the first beginning with `current`. */
  function FieldsFrom(s: string, current: string, escaped: bool): Option<seq<string>>
    decreases |s|
  {
    if s == [] then if escaped then None else Some([current])
    else if escaped then FieldsFrom(s[1..], current + [s[0]], false)
    else if s[0] == '\\' then FieldsFrom(s[1..], current, true)
    else if s[0] == ':' then
      var rest := FieldsFrom(s[1..], [], false);
      if rest.None? then None else Some([current] + rest.value)
    else FieldsFrom(s[1..], current + [s[0]], false)
  }

  const FIELD_COUNT: nat := 13

  function Parse(input: string): Result<seq<string>, CpeError> {
    if !StartsWith(input, "cpe:2.3:") then Err(NotCpe23)
    else
      var fields := FieldsFrom(input, [], false);
      if fields.None? then Err(IncompleteEscape)
      else if |fields.value| != FIELD_COUNT then Err(WrongFieldCount(|fields.value|))
      else Ok(fields.value)
  }

  function After(done: seq<string>, rest: Option<seq<string>>): Option<seq<string>> {
    if rest.None? then None else Some(done + rest.value)
  }

  /** `parse_cpe` */
  method ParseCpe(input: string) returns (r: Result<seq<string>, CpeError>)
    ensures r == Parse(input)
  {
    if !StartsWith(input, "cpe:2.3:") { return Err(NotCpe23); }
    var fields: seq<string>, current: string, escaped := [], [], false;
    ghost var all := FieldsFrom(input, [], false);
    assert all.Some? ==> [] + all.value == all.value;
    for i := 0 to |input|
      invariant After(fields, FieldsFrom(input[i..], current, escaped)) == all
    {
      var c := input[i];
      assert input[i..][0] == c && input[i..][1..] == input[i + 1..];
      if escaped {
        current := current + [c];
        escaped := false;
      } else if c == '\\' {
        escaped := true;
      } else if c == ':' {
        ghost var rest := FieldsFrom(input[i + 1..], [], false);
        assert rest.Some? ==> fields + ([current] + rest.value) == (fields + [current]) + rest.value;
        fields := fields + [current];
        current := [];
      } else {
        current := current + [c];
      }
    }
    if escaped { return Err(IncompleteEscape); }
    fields := fields + [current];
    if |fields| != FIELD_COUNT { return Err(WrongFieldCount(|fields|)); }
    return Ok(fields);
  }

  // --- writing fields back ---

  function Escape(field: string): string {
    if field == [] then []
    else (if field[0] == '\\' || field[0] == ':' then ['\\', field[0]] else [field[0]]) + Escape(field[1..])
  }

  function Format(fields: seq<string>): string
    requires fields != []
  {
    if |fields| == 1 then Escape(fields[0]) else Escape(fields[0]) + ":" + Format(fields[1..])
  }

  lemma {:induction false} ReadField(field: string, current: string, rest: string)
    ensures FieldsFrom(Escape(field) + rest, current, false) == FieldsFrom(rest, current + field, false)
    decreases |field|
  {
    var s := Escape(field) + rest;
    if field == [] {
      assert s == rest && current + field == current;
    } else {
      var tail := Escape(field[1..]) + rest;
      ReadField(field[1..], current + [field[0]], rest);
      assert (current + [field[0]]) + field[1..] == current + field;
      if field[0] == '\\' || field[0] == ':' {
        assert s == ['\\', field[0]] + tail;
        assert s[1..] == [field[0]] + tail && s[1..][1..] == tail;
      } else {
        assert s == [field[0]] + tail;
      }
    }
  }

  lemma {:induction false} ReadFields(fields: seq<string>)
    requires fields != []
    ensures FieldsFrom(Format(fields), [], false) == Some(fields)
    decreases |fields|
  {
    if |fields| == 1 {
      ReadField(fields[0], [], []);
      assert Escape(fields[0]) + [] == Escape(fields[0]) && [] + fields[0] == fields[0] && [fields[0]] == fields;
    } else {
      var rest := ":" + Format(fields[1..]);
      ReadFields(fields[1..]);
      ReadField(fields[0], [], rest);
      assert Format(fields) == Escape(fields[0]) + rest && [] + fields[0] == fields[0];
      assert rest[0] == ':' && rest[1..] == Format(fields[1..]);
      assert [fields[0]] + fields[1..] == fields;
    }
  }

  predicate IsName(fields: seq<string>) {
    |fields| == FIELD_COUNT && fields[0] == "cpe" && fields[1] == "2.3"
  }

  lemma {:induction false} EscapePlain(field: string)
    requires '\\' !in field && ':' !in field
    ensures Escape(field) == field
  {
    if field != [] { EscapePlain(field[1..]); }
  }

  lemma FormatPlain(fields: seq<string>)
    requires |fields| > 1 && '\\' !in fields[0] && ':' !in fields[0]
    ensures Format(fields) == fields[0] + ":" + Format(fields[1..])
  {
    EscapePlain(fields[0]);
  }

  lemma FormatStart(fields: seq<string>)
    requires IsName(fields)
    ensures StartsWith(Format(fields), "cpe:2.3:")
  {
    var tail := fields[1..];
    FormatPlain(fields);
    FormatPlain(tail);
    var rest := Format(tail[1..]);
    assert "cpe" + ":" + ("2.3" + ":" + rest) == "cpe:2.3:" + rest;
  }

  /** Reading what was written gives every name back, whatever its fields contain. */
  lemma NameRoundTrip(fields: seq<string>)
    requires IsName(fields)
    ensures Parse(Format(fields)) == Ok(fields)
  {
    FormatStart(fields);
    ReadFields(fields);
  }

  lemma PlainField(field: string, rest: string)
    requires '\\' !in field && ':' !in field
    ensures FieldsFrom(field + (":" + rest), [], false) == After([field], FieldsFrom(rest, [], false))
  {
    EscapePlain(field);
    ReadField(field, [], ":" + rest);
    assert [] + field == field && (":" + rest)[1..] == rest;
  }

  lemma PlainStart(s: string)
    requires StartsWith(s, "cpe:2.3:")
    ensures FieldsFrom(s, [], false) == After(["cpe", "2.3"], FieldsFrom(s[8..], [], false))
  {
    var rest := "2.3" + (":" + s[8..]);
    assert s == "cpe:2.3:" + s[8..];
    assert s == "cpe" + (":" + rest);
    PlainField("cpe", rest);
    PlainField("2.3", s[8..]);
    var fields := FieldsFrom(s[8..], [], false);
    assert fields.Some? ==> ["cpe"] + (["2.3"] + fields.value) == ["cpe", "2.3"] + fields.value;
  }

  /** Every string accepted is a name, and reading its canonical form changes nothing. */
  lemma ParseIsName(s: string)
    requires Parse(s).Ok?
    ensures IsName(Parse(s).value) && Parse(Format(Parse(s).value)) == Parse(s)
  {
    PlainStart(s);
    NameRoundTrip(Parse(s).value);
  }
}
