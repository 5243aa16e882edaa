/** `BfilePreprocess` of bufr2nc.py: one pass over the BUFR messages that
    counts the messages and subsets the conversion will select and finds the
    earliest message date. The file is a sequence of messages and the regular
    expression search is a parameter. */
module PreScan {
  import opened Wrappers
  import opened RefDate

  /** The starting value of the earliest-date search: not a real date. */
  const EarliestSentinel: nat := 9999999999

  /** One BUFR message as the pass sees it: its type, its YYYYMMDDHH date
      and its number of subsets. */
  datatype Message = Message(msgType: string, date: nat, subsets: nat)

  /** The pass's counts: observations (subsets) and messages selected,
      messages matching the type pattern, and the earliest selected date. */
  datatype Scan = Scan(numObs: nat, numMsg: nat, totalNumMsg: nat, earliest: nat)

  /** The messages whose type the pattern finds, in file order. */
  function Matching(msgs: seq<Message>, pattern: string, search: (string, string) -> bool): (r: seq<Message>)
    ensures |r| <= |msgs|
  {
    if msgs == [] then []
    else
      var last := msgs[|msgs| - 1];
      Matching(msgs[..|msgs| - 1], pattern, search) + (if search(pattern, last.msgType) then [last] else [])
  }

  /** The matching messages are exactly the messages whose type the
      pattern finds, in file order. */
  lemma {:induction false} MatchingMembers(msgs: seq<Message>, pattern: string, search: (string, string) -> bool)
    ensures forall m :: m in Matching(msgs, pattern, search) <==> m in msgs && search(pattern, m.msgType)
  {
    if msgs != [] {
      var last := msgs[|msgs| - 1];
      assert forall m :: m in msgs <==> m in msgs[..|msgs| - 1] || m == last;
      MatchingMembers(msgs[..|msgs| - 1], pattern, search);
    }
  }

  /** The messages the conversion keeps: the first `maxNumMsg` matching ones,
      or all of them when `maxNumMsg` is below 1. */
  function Selected(msgs: seq<Message>, pattern: string, search: (string, string) -> bool, maxNumMsg: int): (r: seq<Message>)
  {
    var all := Matching(msgs, pattern, search);
    if maxNumMsg < 1 || |all| <= maxNumMsg then all else all[..maxNumMsg]
  }

  /** The selection is the longest prefix of the matching messages the cap
      allows. */
  lemma SelectedIsCappedPrefix(msgs: seq<Message>, pattern: string, search: (string, string) -> bool, maxNumMsg: int)
    ensures var all := Matching(msgs, pattern, search);
      && Selected(msgs, pattern, search, maxNumMsg) <= all
      && |Selected(msgs, pattern, search, maxNumMsg)| == if maxNumMsg < 1 || |all| <= maxNumMsg then |all| else maxNumMsg
  {
  }

  function SubsetTotal(ms: seq<Message>): nat {
    if ms == [] then 0 else SubsetTotal(ms[..|ms| - 1]) + ms[|ms| - 1].subsets
  }

  /** The smallest date of `ms`, or the sentinel when `ms` is empty. */
  function Earliest(ms: seq<Message>): nat {
    if ms == [] then EarliestSentinel
    else
      var rest := Earliest(ms[..|ms| - 1]);
      var last := ms[|ms| - 1];
      if last.date < rest then last.date else rest
  }

  /** The earliest date is a lower bound of the dates, and it is one of them
      unless no date is below the sentinel. */
  lemma {:induction false} EarliestIsMinimum(ms: seq<Message>)
    ensures forall m :: m in ms ==> Earliest(ms) <= m.date
    ensures ms == [] ==> Earliest(ms) == EarliestSentinel
    ensures Earliest(ms) == EarliestSentinel || exists m :: m in ms && m.date == Earliest(ms)
  {
    if ms != [] {
      var last := ms[|ms| - 1];
      assert forall m :: m in ms <==> m in ms[..|ms| - 1] || m == last;
      EarliestIsMinimum(ms[..|ms| - 1]);
    }
  }

  /** The model's reading of the whole pass. */
  function ScanOf(msgs: seq<Message>, pattern: string, search: (string, string) -> bool, maxNumMsg: int): (r: Scan)
    ensures r.numMsg <= r.totalNumMsg <= |msgs|
    ensures maxNumMsg >= 1 ==> r.numMsg <= maxNumMsg
    ensures maxNumMsg < 1 ==> r.numMsg == r.totalNumMsg
    ensures r.numMsg == 0 ==> r.numObs == 0 && r.earliest == EarliestSentinel
  {
    var sel := Selected(msgs, pattern, search, maxNumMsg);
    Scan(SubsetTotal(sel), |sel|, |Matching(msgs, pattern, search)|, Earliest(sel))
  }

  /** How one more message extends the selection. */
  lemma {:induction false} SelectedStep(msgs: seq<Message>, m: Message, pattern: string, search: (string, string) -> bool, maxNumMsg: int)
    ensures Selected(msgs + [m], pattern, search, maxNumMsg)
         == Selected(msgs, pattern, search, maxNumMsg)
            + (if search(pattern, m.msgType)
                  && (maxNumMsg < 1 || |Selected(msgs, pattern, search, maxNumMsg)| < maxNumMsg)
               then [m] else [])
  {
    var ext := msgs + [m];
    assert ext[..|ext| - 1] == msgs;
    var all := Matching(msgs, pattern, search);
    var all' := Matching(ext, pattern, search);
    assert all' == all + (if search(pattern, m.msgType) then [m] else []);
    if maxNumMsg >= 1 && |all| > maxNumMsg {
      assert all'[..maxNumMsg] == all[..maxNumMsg];
    } else if maxNumMsg >= 1 && |all| == maxNumMsg && search(pattern, m.msgType) {
      assert all'[..maxNumMsg] == all;
    }
  }

  lemma MatchingStep(msgs: seq<Message>, m: Message, pattern: string, search: (string, string) -> bool)
    ensures Matching(msgs + [m], pattern, search)
         == Matching(msgs, pattern, search) + (if search(pattern, m.msgType) then [m] else [])
  {
    assert (msgs + [m])[..|msgs|] == msgs;
  }

  lemma SubsetTotalStep(ms: seq<Message>, m: Message)
    ensures SubsetTotal(ms + [m]) == SubsetTotal(ms) + m.subsets
  {
    assert (ms + [m])[..|ms|] == ms;
  }

  lemma EarliestStep(ms: seq<Message>, m: Message)
    ensures Earliest(ms + [m]) == if m.date < Earliest(ms) then m.date else Earliest(ms)
  {
    assert (ms + [m])[..|ms|] == ms;
  }

  /** The counts after one more message, as the loop body updates them. */
  function Advance(scan: Scan, m: Message, pattern: string, search: (string, string) -> bool, maxNumMsg: int): Scan {
    if !search(pattern, m.msgType) then scan
    else if maxNumMsg < 1 || scan.numMsg < maxNumMsg then
      Scan(scan.numObs + m.subsets, scan.numMsg + 1, scan.totalNumMsg + 1,
           if m.date < scan.earliest then m.date else scan.earliest)
    else scan.(totalNumMsg := scan.totalNumMsg + 1)
  }

  /** The loop body keeps the counts equal to the model's reading of the
      messages seen so far. */
  lemma ScanOfStep(msgs: seq<Message>, m: Message, pattern: string, search: (string, string) -> bool, maxNumMsg: int)
    ensures ScanOf(msgs + [m], pattern, search, maxNumMsg)
         == Advance(ScanOf(msgs, pattern, search, maxNumMsg), m, pattern, search, maxNumMsg)
  {
    MatchingStep(msgs, m, pattern, search);
    SelectedStep(msgs, m, pattern, search, maxNumMsg);
    var sel := Selected(msgs, pattern, search, maxNumMsg);
    if search(pattern, m.msgType) && (maxNumMsg < 1 || |sel| < maxNumMsg) {
      ScanOfStepTaken(msgs, m, pattern, search, maxNumMsg);
    } else {
      ScanOfStepPassed(msgs, m, pattern, search, maxNumMsg);
    }
  }

  lemma ScanOfStepTaken(msgs: seq<Message>, m: Message, pattern: string, search: (string, string) -> bool, maxNumMsg: int)
    requires Matching(msgs + [m], pattern, search) == Matching(msgs, pattern, search) + [m]
    requires Selected(msgs + [m], pattern, search, maxNumMsg) == Selected(msgs, pattern, search, maxNumMsg) + [m]
    ensures var s0 := ScanOf(msgs, pattern, search, maxNumMsg);
      ScanOf(msgs + [m], pattern, search, maxNumMsg)
        == Scan(s0.numObs + m.subsets, s0.numMsg + 1, s0.totalNumMsg + 1,
                if m.date < s0.earliest then m.date else s0.earliest)
  {
    var sel := Selected(msgs, pattern, search, maxNumMsg);
    SubsetTotalStep(sel, m);
    EarliestStep(sel, m);
  }

  lemma ScanOfStepPassed(msgs: seq<Message>, m: Message, pattern: string, search: (string, string) -> bool, maxNumMsg: int)
    requires Selected(msgs + [m], pattern, search, maxNumMsg) == Selected(msgs, pattern, search, maxNumMsg)
    ensures var s0 := ScanOf(msgs, pattern, search, maxNumMsg);
      ScanOf(msgs + [m], pattern, search, maxNumMsg)
        == s0.(totalNumMsg := |Matching(msgs + [m], pattern, search)|)
  {
  }

  lemma ScanOfPrefix(msgs: seq<Message>, i: nat, pattern: string, search: (string, string) -> bool, maxNumMsg: int)
    requires i < |msgs|
    ensures ScanOf(msgs[..i + 1], pattern, search, maxNumMsg)
         == Advance(ScanOf(msgs[..i], pattern, search, maxNumMsg), msgs[i], pattern, search, maxNumMsg)
  {
    assert msgs[..i + 1] == msgs[..i] + [msgs[i]];
    ScanOfStep(msgs[..i], msgs[i], pattern, search, maxNumMsg);
  }

  /** The pass itself, one message at a time as `bufr.advance()` yields them. */
  method BfilePreprocess(msgs: seq<Message>, pattern: string, search: (string, string) -> bool, maxNumMsg: int)
    returns (scan: Scan)
    ensures scan == ScanOf(msgs, pattern, search, maxNumMsg)
  {
    scan := Scan(0, 0, 0, EarliestSentinel);
    var i := 0;
    assert msgs[..0] == [];
    while i < |msgs|
      invariant 0 <= i <= |msgs|
      invariant ScanOf(msgs[..i], pattern, search, maxNumMsg) == scan
    {
      ScanOfPrefix(msgs, i, pattern, search, maxNumMsg);
      scan := CountMessage(scan, msgs[i], pattern, search, maxNumMsg);
      i := i + 1;
    }
    assert msgs[..i] == msgs;
  }

  /** The body of the pass for one message: count it as matching, and count
      it and its subsets as selected while the cap allows, keeping the
      earliest date. */
  method CountMessage(scan: Scan, m: Message, pattern: string, search: (string, string) -> bool, maxNumMsg: int)
    returns (next: Scan)
    ensures next == Advance(scan, m, pattern, search, maxNumMsg)
  {
    var totalNumMsg, numMsg, numObs, earliest := scan.totalNumMsg, scan.numMsg, scan.numObs, scan.earliest;
    if search(pattern, m.msgType) {
      totalNumMsg := totalNumMsg + 1;
      if maxNumMsg < 1 || numMsg < maxNumMsg {
        numMsg := numMsg + 1;
        numObs := numObs + m.subsets;
        if m.date < earliest {
          earliest := m.date;
        }
      }
    }
    next := Scan(numObs, numMsg, totalNumMsg, earliest);
  }

  // ---------------------------------------------------------------------------
  // The reference date of the pass

  /** Why the pre-scan cannot give a reference date. */
  datatype ScanError = NoMessagesSelected | BadDate(err: DateError)

  /** The reference date as the script computes it: `FindRefDate` of the
      earliest selected date, whatever was selected. */
  function RefDateAsWritten(scan: Scan): (r: Result<nat, DateError>)
    ensures scan.earliest == EarliestSentinel ==> r == Err(ValueError)
    ensures scan.numMsg > 0 ==> match r
                                case Ok(v) => ReferenceDate(scan) == Ok(v)
                                case Err(e) => ReferenceDate(scan) == Err(BadDate(e))
  {
    if scan.earliest == EarliestSentinel then
      SentinelIsNotADate(scan.earliest);
      FindRefDate(scan.earliest)
    else FindRefDate(scan.earliest)
  }

  /** With nothing selected the earliest date is still the sentinel, whose
      month field is 99: the `datetime` constructor raises ValueError. */
  lemma SentinelIsNotADate(d: nat)
    requires d == EarliestSentinel
    ensures SplitDate(d) == Err(ValueError)
    ensures FindRefDate(d) == Err(ValueError)
  {
    SplitDateTenDigits(d);
    assert Fields(d).month == 99;
  }

  /** A file with no message of the wanted type makes the script fail in
      `datetime` rather than report that there is nothing to convert. */
  lemma NoSelectionFailsAsWritten(msgs: seq<Message>, pattern: string, search: (string, string) -> bool, maxNumMsg: int)
    requires Selected(msgs, pattern, search, maxNumMsg) == []
    ensures RefDateAsWritten(ScanOf(msgs, pattern, search, maxNumMsg)) == Err(ValueError)
  {
    SentinelIsNotADate(EarliestSentinel);
  }

  /** The reference date with an empty selection reported as such. */
  function ReferenceDate(scan: Scan): (r: Result<nat, ScanError>)
    ensures scan.numMsg == 0 ==> r == Err(NoMessagesSelected)
    ensures scan.numMsg > 0 ==> match FindRefDate(scan.earliest)
                                case Ok(v) => r == Ok(v)
                                case Err(e) => r == Err(BadDate(e))
  {
    if scan.numMsg == 0 then Err(NoMessagesSelected)
    else match FindRefDate(scan.earliest)
      case Ok(v) => Ok(v)
      case Err(e) => Err(BadDate(e))
  }

  /** When something is selected and every message carries a valid ten-digit
      date short of the last hours of year 9999, the reference date is the
      next analysis time after the earliest of them. */
  lemma RefDateOfValidSelection(msgs: seq<Message>, pattern: string, search: (string, string) -> bool, maxNumMsg: int)
    requires var sel := Selected(msgs, pattern, search, maxNumMsg);
      && sel != []
      && forall m :: m in sel ==> 1000000000 <= m.date < 9999123118 && SplitDate(m.date).Ok?
    ensures var scan := ScanOf(msgs, pattern, search, maxNumMsg);
      && ReferenceDate(scan).Ok?
      && ReferenceDate(scan) == Ok(FindRefDate(scan.earliest).value)
      && (exists m :: m in Selected(msgs, pattern, search, maxNumMsg) && m.date == scan.earliest)
      && scan.earliest < ReferenceDate(scan).value
  {
    var sel := Selected(msgs, pattern, search, maxNumMsg);
    var e := Earliest(sel);
    EarliestIsMinimum(sel);
    assert sel[0] in sel;
    assert e != EarliestSentinel;
    var m :| m in sel && m.date == e;
    FindRefDateBelowLimit(e);
    FindRefDateIsLater(e);
  }

  /** A valid ten-digit date before 9999-12-31 18Z has a reference date. */
  lemma FindRefDateBelowLimit(d: nat)
    requires 1000000000 <= d < 9999123118 && SplitDate(d).Ok?
    ensures FindRefDate(d).Ok?
  {
    var t := SplitDate(d).value;
    MakeDateOfSplitDate(d);
    FindRefDateOverflow(d);
  }
}
