/** The line parser of the Node.js service: one line of a chat export in the layout
    `DD/MM/YYYY HH:MM - SENDER: MESSAGE` becomes a record, any other line gives no match.

    The regular expression `^(\d{2}\/\d{2}\/\d{4}) (\d{2}:\d{2}) - ([^:]+): (.*)$` is stated
    twice: as the layout predicate IsLayout, which says how a matching line is glued together
    from its four groups, and as the parser ParseLine, which finds the groups by position.
    Because `[^:]+` cannot cross a colon, the sender ends at the first colon after position 19,
    so the match is unique and the parser needs no backtracking. */
module ChatLine {
  import opened Outcomes
  import opened Text

  /** What parseLine returns on a match. */
  datatype Record = Record(datetime: string, phone: string, message: string, raw: string)

  /** `\d{2}/\d{2}/\d{4}`: JavaScript's `\d` is the ASCII digits only. */
  predicate IsDateField(d: string) {
    |d| == 10
    && IsDigit(d[0]) && IsDigit(d[1]) && d[2] == '/'
    && IsDigit(d[3]) && IsDigit(d[4]) && d[5] == '/'
    && IsDigit(d[6]) && IsDigit(d[7]) && IsDigit(d[8]) && IsDigit(d[9])
  }

  /** `\d{2}:\d{2}` */
  predicate IsTimeField(t: string) {
    |t| == 5 && IsDigit(t[0]) && IsDigit(t[1]) && t[2] == ':' && IsDigit(t[3]) && IsDigit(t[4])
  }

  /** `YYYY-MM-DDTHH:MM:00` from the date and time groups; no calendar check is made. Reading
      the day, month and year back out of the result gives the date group again. */
  function IsoDateTime(date: string, time: string): (iso: string)
    requires IsDateField(date) && IsTimeField(time)
    ensures |iso| == 19
    ensures iso[8..10] + "/" + iso[5..7] + "/" + iso[..4] == date
    ensures iso[11..16] == time && iso[16..] == ":00"
    ensures iso[4] == '-' && iso[7] == '-' && iso[10] == 'T'
  {
    var iso := date[6..10] + "-" + date[3..5] + "-" + date[..2] + "T" + time + ":00";
    assert iso[8..10] == date[..2] && iso[5..7] == date[3..5] && iso[..4] == date[6..10];
    assert iso[8..10] + "/" + iso[5..7] + "/" + iso[..4] == date;
    iso
  }

  /** line is the regular expression's match of the four groups: a date, a time, a non-empty
      sender without colon, and a message without line terminator (the `.` of `.*`). */
  ghost predicate IsLayout(line: string, date: string, time: string, sender: string, message: string)
    ensures IsLayout(line, date, time, sender, message) ==> |line| >= 22 && line[..10] == date && line[11..16] == time
  {
    && IsDateField(date) && IsTimeField(time)
    && sender != [] && ':' !in sender
    && (forall c <- message :: !IsJsLineTerminator(c))
    && line == date + " " + time + " - " + sender + ": " + message
  }

  /** The record parseLine builds from the four groups of a match. */
  function RecordOf(line: string, date: string, time: string, sender: string, message: string): (r: Record)
    requires IsDateField(date) && IsTimeField(time)
    ensures r.raw == line && |r.datetime| == 19
    ensures IsTrimmed(r.phone, IsJsWhitespace) && IsTrimmed(r.message, IsJsWhitespace)
  {
    TrimIsTrimmed(sender, IsJsWhitespace);
    TrimIsTrimmed(message, IsJsWhitespace);
    Record(IsoDateTime(date, time), Trim(sender, IsJsWhitespace), Trim(message, IsJsWhitespace), line)
  }

  /** The fixed-width start `DD/MM/YYYY HH:MM - ` of a matching line. */
  predicate HasHeader(line: string) {
    |line| >= 19 && IsDateField(line[..10]) && line[10] == ' '
    && IsTimeField(line[11..16]) && line[16] == ' ' && line[17] == '-' && line[18] == ' '
  }

  /** Position of the first colon at or after position 19, or |line| when there is none. */
  function SenderEnd(line: string): (j: nat)
    requires |line| >= 19
    ensures 19 <= j <= |line|
    ensures ':' !in line[19..j]
    ensures j < |line| ==> line[j] == ':'
  {
    19 + IndexOf(line[19..], ':')
  }

  /** parseLine: the record of a matching line, or None. */
  function ParseLine(line: string): (r: Option<Record>)
    ensures r.Some? ==> r.value.raw == line
    ensures r.Some? ==> ':' !in r.value.phone
    ensures r.Some? ==> IsTrimmed(r.value.phone, IsJsWhitespace) && IsTrimmed(r.value.message, IsJsWhitespace)
    ensures r.Some? ==> forall c <- r.value.message :: !IsJsLineTerminator(c)
  {
    if !HasHeader(line) then None
    else
      var j := SenderEnd(line);
      if j == 19 || j + 1 >= |line| || line[j + 1] != ' ' then None
      else if exists c <- line[j + 2..] :: IsJsLineTerminator(c) then None
      else
        var sender, message := line[19..j], line[j + 2..];
        TrimChars(sender, IsJsWhitespace, ':');
        TrimIsTrimmed(sender, IsJsWhitespace);
        TrimIsTrimmed(message, IsJsWhitespace);
        assert forall c <- Trim(message, IsJsWhitespace) :: !IsJsLineTerminator(c) by {
          forall c <- Trim(message, IsJsWhitespace) ensures !IsJsLineTerminator(c) {
            TrimChars(message, IsJsWhitespace, c);
          }
        }
        Some(RecordOf(line, line[..10], line[11..16], sender, message))
  }

  /** The header glued from a date and a time, and where its parts sit. */
  lemma HeaderParts(date: string, time: string, tail: string)
    requires IsDateField(date) && IsTimeField(time)
    ensures |date + " " + time + " - "| == 19
    ensures (date + " " + time + " - " + tail)[..10] == date
    ensures (date + " " + time + " - " + tail)[11..16] == time
    ensures (date + " " + time + " - " + tail)[19..] == tail
    ensures HasHeader(date + " " + time + " - " + tail)
  {
    var h := date + " " + time + " - ";
    var line := h + tail;
    assert h[..10] == date && h[10] == ' ' && h[11..16] == time;
    assert line[..10] == h[..10] && line[11..16] == h[11..16];
  }

  /** A line laid out as the four groups is cut by the parser exactly at those groups: the
      sender reaches the first colon after the header. */
  lemma LayoutSplit(line: string, date: string, time: string, sender: string, message: string)
    requires IsLayout(line, date, time, sender, message)
    ensures HasHeader(line)
    ensures date == line[..10] && time == line[11..16]
    ensures SenderEnd(line) == 19 + |sender|
    ensures sender == line[19..SenderEnd(line)] && message == line[SenderEnd(line) + 2..]
  {
    var tail := sender + (": " + message);
    assert line == date + " " + time + " - " + tail;
    HeaderParts(date, time, tail);
    IndexOfAppend(sender, ": " + message, ':');
    assert IndexOf(line[19..], ':') == |sender|;
    assert line[19..19 + |sender|] == tail[..|sender|] == sender;
    assert line[19 + |sender| + 2..] == tail[|sender| + 2..] == message;
  }

  /** Completeness: every line of the layout parses, to the record built from its groups. */
  lemma ParseLineComplete(line: string, date: string, time: string, sender: string, message: string)
    requires IsLayout(line, date, time, sender, message)
    ensures ParseLine(line) == Some(RecordOf(line, date, time, sender, message))
  {
    LayoutSplit(line, date, time, sender, message);
    var j := SenderEnd(line);
    assert line[j] == ':' && line[j + 1] == ' ';
  }

  /** A line with a header and ": " at j is the concatenation of its groups. */
  lemma Reassemble(line: string, j: nat)
    requires HasHeader(line) && 19 <= j && j + 2 <= |line| && line[j] == ':' && line[j + 1] == ' '
    ensures line == line[..10] + " " + line[11..16] + " - " + line[19..j] + ": " + line[j + 2..]
  {
    assert line[..11] == line[..10] + " ";
    assert line[..16] == line[..11] + line[11..16];
    assert line[..19] == line[..16] + " - ";
    assert line[..j] == line[..19] + line[19..j];
    assert line[..j + 2] == line[..j] + ": ";
    assert line == line[..j + 2] + line[j + 2..];
  }

  /** What the parser found on a line it accepts: a header, a non-empty sender up to the first
      colon, ": " after it, and a message without line terminator. */
  lemma ParseLineGroups(line: string)
    requires ParseLine(line).Some?
    ensures HasHeader(line)
    ensures 19 < SenderEnd(line) && SenderEnd(line) + 2 <= |line| && line[SenderEnd(line) + 1] == ' '
    ensures forall c <- line[SenderEnd(line) + 2..] :: !IsJsLineTerminator(c)
    ensures var j := SenderEnd(line);
      ParseLine(line) == Some(RecordOf(line, line[..10], line[11..16], line[19..j], line[j + 2..]))
  {
  }

  /** Soundness: whatever parses is a line of the layout, and its record is built from the groups. */
  lemma ParseLineSound(line: string) returns (date: string, time: string, sender: string, message: string)
    requires ParseLine(line).Some?
    ensures IsLayout(line, date, time, sender, message)
    ensures ParseLine(line) == Some(RecordOf(line, date, time, sender, message))
  {
    ParseLineGroups(line);
    var j := SenderEnd(line);
    date, time, sender, message := line[..10], line[11..16], line[19..j], line[j + 2..];
    Reassemble(line, j);
  }

  /** parseLine answers null exactly for the lines that are not of the layout. */
  lemma ParseLineNoneIff(line: string)
    ensures ParseLine(line).None? <==>
      forall date, time, sender, message :: !IsLayout(line, date, time, sender, message)
  {
    if ParseLine(line).Some? {
      var date, time, sender, message := ParseLineSound(line);
    } else {
      forall date, time, sender, message ensures !IsLayout(line, date, time, sender, message) {
        if IsLayout(line, date, time, sender, message) {
          ParseLineComplete(line, date, time, sender, message);
        }
      }
    }
  }

  /** The match is deterministic: a line has at most one decomposition into the four groups. */
  lemma LayoutUnique(line: string, d1: string, t1: string, s1: string, m1: string,
                     d2: string, t2: string, s2: string, m2: string)
    requires IsLayout(line, d1, t1, s1, m1) && IsLayout(line, d2, t2, s2, m2)
    ensures d1 == d2 && t1 == t2 && s1 == s2 && m1 == m2
  {
    LayoutSplit(line, d1, t1, s1, m1);
    LayoutSplit(line, d2, t2, s2, m2);
  }

  /** The worked example of a message from Ana. */
  lemma ParseLineExample(line: string)
    requires line == "01/02/2023 09:15 - Ana: Bom dia"
    ensures ParseLine(line) == Some(Record("2023-02-01T09:15:00", "Ana", "Bom dia", line))
  {
    var date, time, sender, message := "01/02/2023", "09:15", "Ana", "Bom dia";
    assert IsLayout(line, date, time, sender, message) by {
      assert line == date + " " + time + " - " + sender + ": " + message;
    }
    assert ParseLine(line) == Some(RecordOf(line, date, time, sender, message)) by {
      ParseLineComplete(line, date, time, sender, message);
    }
    assert RecordOf(line, date, time, sender, message) == Record("2023-02-01T09:15:00", sender, message, line) by {
      ExampleDateTime();
      ExampleTrims();
    }
  }

  lemma ExampleDateTime()
    ensures IsoDateTime("01/02/2023", "09:15") == "2023-02-01T09:15:00"
  {
    var d: string := "01/02/2023";
    assert d[6..10] == "2023" && d[3..5] == "02" && d[..2] == "01";
    assert "2023" + "-" + "02" + "-" + "01" + "T" + "09:15" + ":00" == "2023-02-01T09:15:00";
  }

  lemma ExampleTrims()
    ensures Trim("Ana", IsJsWhitespace) == "Ana"
    ensures Trim("Bom dia", IsJsWhitespace) == "Bom dia"
  {
    var a: string, b: string := "Ana", "Bom dia";
    assert a[0] == 'A' && a[|a| - 1] == 'a' && b[0] == 'B' && b[|b| - 1] == 'a';
    assert !IsJsWhitespace('A') && !IsJsWhitespace('B') && !IsJsWhitespace('a');
    TrimOfTrimmed(a, IsJsWhitespace);
    TrimOfTrimmed(b, IsJsWhitespace);
  }

  /** No calendar validation: day 99 of month 99 of year 0000 at 99:99 still parses. */
  lemma ParseLineNoCalendarCheck(line: string)
    requires line == "99/99/0000 99:99 - x: y"
    ensures ParseLine(line).Some? && ParseLine(line).value.datetime == "0000-99-99T99:99:00"
  {
    var date, time, sender, message := "99/99/0000", "99:99", "x", "y";
    assert IsLayout(line, date, time, sender, message) by {
      assert line == date + " " + time + " - " + sender + ": " + message;
    }
    assert ParseLine(line) == Some(RecordOf(line, date, time, sender, message)) by {
      ParseLineComplete(line, date, time, sender, message);
    }
    assert IsoDateTime(date, time) == "0000-99-99T99:99:00" by {
      NoCalendarDateTime();
    }
  }

  lemma NoCalendarDateTime()
    ensures IsoDateTime("99/99/0000", "99:99") == "0000-99-99T99:99:00"
  {
    var d: string := "99/99/0000";
    assert d[6..10] == "0000" && d[3..5] == "99" && d[..2] == "99";
    assert "0000" + "-" + "99" + "-" + "99" + "T" + "99:99" + ":00" == "0000-99-99T99:99:00";
  }

  /** A colon right after the sender that is not followed by a space rejects the line, even if
      a later ": " exists, because the sender cannot reach past the first colon. */
  lemma ParseLineRejectsColonWithoutSpace(line: string)
    requires HasHeader(line)
    requires SenderEnd(line) + 1 < |line| && line[SenderEnd(line) + 1] != ' '
    ensures ParseLine(line).None?
    ensures forall date, time, sender, message :: !IsLayout(line, date, time, sender, message)
  {
    ParseLineNoneIff(line);
  }
}
