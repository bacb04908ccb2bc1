/** From a message to a command: the topic's key, the payload's parser, and which command they make. */
module Topics {
  import opened Wrappers
  import opened Inverter
  import opened Schedule
  import opened Controls

  // ------------------------------------------------------------------- the topic

  /** The text's segments between slashes; there is always one. */
  function Split(s: string): (segments: seq<string>)
    ensures |segments| >= 1
  {
    if s == "" then [""]
    else
      var rest := Split(s[1..]);
      if s[0] == '/' then [""] + rest else [[s[0]] + rest[0]] + rest[1..]
  }

  function CommandKey(topic: string): Option<string> {
    var segments := Split(topic);
    var n := |segments|;
    if n < 2 || segments[n - 1] != "set" || segments[n - 2] == "" then None else Some(segments[n - 2])
  }

  lemma {:induction false} SplitPlain(s: string)
    requires '/' !in s
    ensures Split(s) == [s]
    decreases |s|
  {
    if s != "" {
      assert s == [s[0]] + s[1..];
      SplitPlain(s[1..]);
    }
  }

  lemma {:induction false} SplitAt(a: string, b: string)
    ensures Split(a + "/" + b) == Split(a) + Split(b)
    decreases |a|
  {
    var s := a + "/" + b;
    if a == "" {
      assert s[1..] == b;
    } else {
      assert s[0] == a[0] && s[1..] == a[1..] + "/" + b;
      SplitAt(a[1..], b);
    }
  }

  /** Where the last slash is, or -1. */
  function LastSlash(s: string): (i: int)
    ensures -1 <= i < |s| && (i >= 0 ==> s[i] == '/')
    ensures forall k :: i < k < |s| ==> s[k] != '/'
  {
    if s == "" then -1
    else if s[|s| - 1] == '/' then |s| - 1
    else LastSlash(s[..|s| - 1])
  }

  /** The text without its last segment and the slash before it, if it has more than one. */
  lemma LastSegment(s: string) returns (front: string)
    ensures var segments := Split(s);
            var last := segments[|segments| - 1];
            && '/' !in last
            && (|segments| == 1 ==> s == last)
            && (|segments| > 1 ==> s == front + "/" + last && Split(front) == segments[..|segments| - 1])
  {
    var i := LastSlash(s);
    if i < 0 {
      SplitPlain(s);
      front := "";
    } else {
      front := s[..i];
      assert s == front + "/" + s[i + 1..];
      SplitAt(front, s[i + 1..]);
      SplitPlain(s[i + 1..]);
    }
  }

  /** The topic ends in the key and "set", alone or after some prefix. */
  ghost predicate Carries(topic: string, key: string) {
    topic == key + "/" + "set" || exists front: string :: topic == front + "/" + key + "/" + "set"
  }

  /** A key is taken from a topic exactly when it is the non-empty segment before a final "set". */
  lemma CommandKeyExact(topic: string, key: string)
    ensures CommandKey(topic) == Some(key) <==> key != "" && '/' !in key && Carries(topic, key)
  {
    SplitPlain("set");
    if CommandKey(topic) == Some(key) {
      var before := LastSegment(topic);
      var front := LastSegment(before);
      if |Split(before)| > 1 {
        assert topic == front + "/" + key + "/" + "set";
      }
    }
    if key != "" && '/' !in key && Carries(topic, key) {
      SplitPlain(key);
      if topic == key + "/" + "set" {
        SplitAt(key, "set");
      } else {
        var front: string :| topic == front + "/" + key + "/" + "set";
        SplitAt(front, key);
        SplitAt(front + "/" + key, "set");
        assert topic == (front + "/" + key) + "/" + "set";
      }
    }
  }

  // ----------------------------------------------------------------- the payload

  /** Upper case, as far as it can make one of the two options: the long s has the capital S. */
  function Upper(c: char): char {
    if 'a' <= c <= 'z' then (c as int - 'a' as int + 'A' as int) as char
    else if c as int == 0x17F then 'S'
    else c
  }

  function Uppered(s: string): (r: string)
    ensures |r| == |s| && forall k :: 0 <= k < |s| ==> r[k] == Upper(s[k])
  {
    if s == "" then "" else [Upper(s[0])] + Uppered(s[1..])
  }

  function ParseRunStop(payload: string): Option<bool> {
    var option := Uppered(TrimSpace(payload));
    if option == "RUN" then Some(true)
    else if option == "STOP" then Some(false)
    else None
  }

  /** "run" in any letter case. */
  predicate IsRun(s: string) {
    |s| == 3 && s[0] in {'r', 'R'} && s[1] in {'u', 'U'} && s[2] in {'n', 'N'}
  }

  /** "stop" in any letter case; the long s is a case of s. */
  predicate IsStop(s: string) {
    && |s| == 4 && (s[0] in {'s', 'S'} || s[0] as int == 0x17F) && s[1] in {'t', 'T'}
    && s[2] in {'o', 'O'} && s[3] in {'p', 'P'}
  }

  lemma UpperCases(c: char)
    ensures Upper(c) == 'R' <==> c in {'r', 'R'}
    ensures Upper(c) == 'U' <==> c in {'u', 'U'}
    ensures Upper(c) == 'N' <==> c in {'n', 'N'}
    ensures Upper(c) == 'S' <==> c in {'s', 'S'} || c as int == 0x17F
    ensures Upper(c) == 'T' <==> c in {'t', 'T'}
    ensures Upper(c) == 'O' <==> c in {'o', 'O'}
    ensures Upper(c) == 'P' <==> c in {'p', 'P'}
  {
  }

  lemma UpperedWords(s: string)
    ensures Uppered(s) == "RUN" <==> IsRun(s)
    ensures Uppered(s) == "STOP" <==> IsStop(s)
  {
    hide Upper;
    forall k | 0 <= k < |s| ensures Uppered(s)[k] == Upper(s[k]) {
      UpperCases(s[k]);
    }
    if |s| == 3 {
      UpperCases(s[0]);
      UpperCases(s[1]);
      UpperCases(s[2]);
    } else if |s| == 4 {
      UpperCases(s[0]);
      UpperCases(s[1]);
      UpperCases(s[2]);
      UpperCases(s[3]);
    }
  }

  /** The payload turns optimal income on exactly when, trimmed, it is "run", and off exactly when it is "stop". */
  lemma RunStopExact(payload: string)
    ensures ParseRunStop(payload) == Some(true) <==> IsRun(TrimSpace(payload))
    ensures ParseRunStop(payload) == Some(false) <==> IsStop(TrimSpace(payload))
  {
    hide Uppered, TrimSpace;
    UpperedWords(TrimSpace(payload));
  }

  // ----------------------------------------------------------------- the command

  /** How an amps payload is parsed, clamped and encoded. */
  type Amps = string -> Option<Word>

  function KeyedCommand(key: string, payload: string, amps: Amps): Command {
    if key == "set_charge_current" then SetChargeCurrent(amps(payload))
    else if key == "set_discharge_current" then SetDischargeCurrent(amps(payload))
    else if key == "optimal_income" then OptimalIncome(ParseRunStop(payload))
    else if key == "boost_select" then BoostSelect(payload)
    else if key == "rtc_sync" then RTCSync
    else Unknown
  }

  /** The command a message carries; one with no routable topic carries none. */
  function CommandOf(topic: string, payload: string, amps: Amps): Command {
    var key := CommandKey(topic);
    if key.None? then Unknown else KeyedCommand(key.value, payload, amps)
  }
}
