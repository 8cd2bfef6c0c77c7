/** The settings page's `formatLabel`, which turns a camelCase key into a label. */
module SettingsPage {
  import opened Ascii

  /** The number of letters A-Z in `s`. */
  function CountUpper(s: string): nat {
    if s == [] then 0 else (if IsUpper(s[0]) then 1 else 0) + CountUpper(s[1..])
  }

  /** `key.replace(/([A-Z])/g, " $1")`: a space before every letter A-Z. */
  function InsertSpaces(key: string): (r: string)
    ensures |r| == |key| + CountUpper(key)
    ensures r != [] ==> !IsUpper(r[0])
  {
    if key == [] then []
    else (if IsUpper(key[0]) then [' ', key[0]] else [key[0]]) + InsertSpaces(key[1..])
  }

  /** The characters `.` does not match: the line terminators. */
  predicate IsLineTerminator(c: char) {
    c == '\n' || c == '\r' || c == '\U{2028}' || c == '\U{2029}'
  }

  /** `s.replace(/^./, (c) => c.toUpperCase())`: the first character, unless it ends a line, in upper case. */
  function CapitalizeFirst(s: string): (r: string)
    ensures |r| == |s|
    ensures s != [] ==> r[1..] == s[1..]
    ensures s != [] && !IsLineTerminator(s[0]) ==> r[0] == UpperChar(s[0])
    ensures s != [] && IsLineTerminator(s[0]) ==> r == s
  {
    if s == [] || IsLineTerminator(s[0]) then s else [UpperChar(s[0])] + s[1..]
  }

  /** `formatLabel` */
  function FormatLabel(key: string): (text: string)
    ensures |text| == |key| + CountUpper(key)
  {
    CapitalizeFirst(InsertSpaces(key))
  }

  /**
   * A key that starts with anything but a capital or a line terminator
   * gets that character in upper case, followed by the rest of the key
   * with a space before every capital.
   */
  lemma FormatLabelOfCamelCase(key: string)
    requires key != [] && !IsUpper(key[0]) && !IsLineTerminator(key[0])
    ensures FormatLabel(key) == [UpperChar(key[0])] + InsertSpaces(key[1..])
  {
  }

  /** A key that starts with a capital gets a leading space, which upper-casing leaves alone. */
  lemma FormatLabelOfCapitalized(key: string)
    requires key != [] && IsUpper(key[0])
    ensures FormatLabel(key) == [' ', key[0]] + InsertSpaces(key[1..])
  {
  }

  /** Removes every space that directly precedes a letter A-Z. */
  function Unspace(s: string): string {
    if s == [] then []
    else if |s| >= 2 && s[0] == ' ' && IsUpper(s[1]) then [s[1]] + Unspace(s[2..])
    else [s[0]] + Unspace(s[1..])
  }

  /** The inserted spaces are exactly the ones `Unspace` removes, so no character of the key is lost. */
  lemma {:induction false} UnspaceInsertSpaces(key: string)
    ensures Unspace(InsertSpaces(key)) == key
  {
    if key != [] {
      var rest := InsertSpaces(key[1..]);
      UnspaceInsertSpaces(key[1..]);
      if IsUpper(key[0]) {
        assert InsertSpaces(key) == [' ', key[0]] + rest;
        assert ([' ', key[0]] + rest)[2..] == rest;
      } else {
        assert InsertSpaces(key) == [key[0]] + rest;
        assert ([key[0]] + rest)[1..] == rest;
        if key[0] == ' ' && rest != [] {
          assert !IsUpper(rest[0]);
        }
      }
    }
  }

  /** Text without capitals passes through `InsertSpaces` unchanged. */
  lemma {:induction false} InsertSpacesKeepsLowercase(s: string)
    requires HasNoUpper(s)
    ensures InsertSpaces(s) == s
  {
    if s != [] {
      assert s[0] in s;
      InsertSpacesKeepsLowercase(s[1..]);
    }
  }

  /** `InsertSpaces` works piece by piece. */
  lemma {:induction false} InsertSpacesConcat(a: string, b: string)
    ensures InsertSpaces(a + b) == InsertSpaces(a) + InsertSpaces(b)
  {
    if a != [] {
      assert (a + b)[0] == a[0] && (a + b)[1..] == a[1..] + b;
      InsertSpacesConcat(a[1..], b);
    } else {
      assert a + b == b;
    }
  }

  /**
   * A two-word camelCase key: a lower-case word, then a capital followed by
   * lower-case letters, becomes both words capitalised with a space between.
   */
  lemma TwoWordLabel(first: string, cap: char, rest: string)
    requires first != [] && HasNoUpper(first) && !IsLineTerminator(first[0])
    requires IsUpper(cap) && HasNoUpper(rest)
    ensures FormatLabel(first + [cap] + rest) == [UpperChar(first[0])] + first[1..] + [' ', cap] + rest
  {
    var spaced := first + [' ', cap] + rest;
    TwoWordSpaces(first, cap, rest);
    assert spaced[0] == first[0];
    assert spaced[1..] == first[1..] + [' ', cap] + rest;
  }

  /** `InsertSpaces` on a two-word camelCase key puts one space between the words. */
  lemma TwoWordSpaces(first: string, cap: char, rest: string)
    requires HasNoUpper(first) && IsUpper(cap) && HasNoUpper(rest)
    ensures InsertSpaces(first + [cap] + rest) == first + [' ', cap] + rest
  {
    InsertSpacesConcat(first + [cap], rest);
    InsertSpacesConcat(first, [cap]);
    InsertSpacesKeepsLowercase(first);
    InsertSpacesKeepsLowercase(rest);
    assert InsertSpaces([cap]) == [' ', cap];
  }

  /** "emailAlerts" is shown as "Email Alerts". */
  lemma EmailAlertsLabel()
    ensures FormatLabel("email" + "Alerts") == "Email Alerts"
  {
    var first, rest := "email", "lerts";
    EmailAlertsPieces(first, rest);
    TwoWordLabel(first, 'A', rest);
  }

  /** How "emailAlerts" and "Email Alerts" split into words. */
  lemma EmailAlertsPieces(first: string, rest: string)
    requires first == "email" && rest == "lerts"
    ensures "email" + "Alerts" == first + ['A'] + rest
    ensures first != [] && first[0] == 'e' && HasNoUpper(first) && HasNoUpper(rest)
    ensures "Email Alerts" == [UpperChar(first[0])] + first[1..] + [' ', 'A'] + rest
  {
    assert UpperChar('e') == 'E' && first[1..] == "mail";
  }

  /** "pushNotifications" is shown as "Push Notifications". */
  lemma PushNotificationsLabel()
    ensures FormatLabel("push" + "Notifications") == "Push Notifications"
  {
    var first, rest := "push", "otifications";
    PushNotificationsPieces(first, rest);
    TwoWordLabel(first, 'N', rest);
  }

  /** How "pushNotifications" and "Push Notifications" split into words. */
  lemma PushNotificationsPieces(first: string, rest: string)
    requires first == "push" && rest == "otifications"
    ensures "push" + "Notifications" == first + ['N'] + rest
    ensures first != [] && first[0] == 'p' && HasNoUpper(first) && HasNoUpper(rest)
    ensures "Push Notifications" == [UpperChar(first[0])] + first[1..] + [' ', 'N'] + rest
  {
    assert UpperChar('p') == 'P' && first[1..] == "ush";
  }

  /** "weeklyReports" is shown as "Weekly Reports". */
  lemma WeeklyReportsLabel()
    ensures FormatLabel("weekly" + "Reports") == "Weekly Reports"
  {
    var first, rest := "weekly", "eports";
    WeeklyReportsPieces(first, rest);
    TwoWordLabel(first, 'R', rest);
  }

  /** How "weeklyReports" and "Weekly Reports" split into words. */
  lemma WeeklyReportsPieces(first: string, rest: string)
    requires first == "weekly" && rest == "eports"
    ensures "weekly" + "Reports" == first + ['R'] + rest
    ensures first != [] && first[0] == 'w' && HasNoUpper(first) && HasNoUpper(rest)
    ensures "Weekly Reports" == [UpperChar(first[0])] + first[1..] + [' ', 'R'] + rest
  {
    assert UpperChar('w') == 'W' && first[1..] == "eekly";
  }

  /** "analysisComplete" is shown as "Analysis Complete". */
  lemma AnalysisCompleteLabel()
    ensures FormatLabel("analysis" + "Complete") == "Analysis Complete"
  {
    var first, rest := "analysis", "omplete";
    AnalysisCompletePieces(first, rest);
    TwoWordLabel(first, 'C', rest);
  }

  /** How "analysisComplete" and "Analysis Complete" split into words. */
  lemma AnalysisCompletePieces(first: string, rest: string)
    requires first == "analysis" && rest == "omplete"
    ensures "analysis" + "Complete" == first + ['C'] + rest
    ensures first != [] && first[0] == 'a' && HasNoUpper(first) && HasNoUpper(rest)
    ensures "Analysis Complete" == [UpperChar(first[0])] + first[1..] + [' ', 'C'] + rest
  {
    assert UpperChar('a') == 'A' && first[1..] == "nalysis";
  }
}
