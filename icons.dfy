/** The priority icon `createTaskHTML` draws beside a task. The stored priority is a
    string and the code tests it with loose equality against the numbers 3, 2 and 1,
    so the string is compared through `Number(...)`. */
module Icons {
  import opened JsValues

  /** The cell-signal icons of the page, by the number of bars they draw. */
  datatype Icon = NoIcon | CellSignal2 | CellSignal3 | CellSignal5

  /** Loose equality `priority == n` between a string and a number. In the
      modelled `Number` (see `ToNumber`), for a digit value n it holds exactly when
      the text, white space aside, is zeros followed by the digit of n. */
  predicate LooselyEquals(priority: string, n: int)
    ensures 1 <= n <= 9 ==>
      (LooselyEquals(priority, n) <==> ZerosThen(Trim(priority), DigitChar(n)))
  {
    NumberOfZerosThenDigit(priority, n);
    ToNumber(priority) == Some(n)
  }

  /** The icon chosen for a task's priority. In the modelled `Number` (see
      `ToNumber`), over every stored text: "3", "2" and "1", padded with white space
      or leading zeros, select the three icons, and anything else draws none. Texts
      such as "3.0", "+3", "3e0" or "0x3", which the page also matches, draw no
      icon here. */
  function PriorityIcon(priority: string): (icon: Icon)
    ensures icon == CellSignal2 <==> ZerosThen(Trim(priority), '3')
    ensures icon == CellSignal3 <==> ZerosThen(Trim(priority), '2')
    ensures icon == CellSignal5 <==> ZerosThen(Trim(priority), '1')
  {
    if LooselyEquals(priority, 3) then CellSignal2
    else if LooselyEquals(priority, 2) then CellSignal3
    else if LooselyEquals(priority, 1) then CellSignal5
    else NoIcon
  }

  /** The signal strength an icon shows (0 for none). */
  function Bars(icon: Icon): nat {
    match icon
    case NoIcon => 0
    case CellSignal2 => 2
    case CellSignal3 => 3
    case CellSignal5 => 5
  }

  /** The three priority codes of the form and the empty priority. */
  lemma IconOfCodes()
    ensures PriorityIcon("3") == CellSignal2
    ensures PriorityIcon("2") == CellSignal3
    ensures PriorityIcon("1") == CellSignal5
    ensures PriorityIcon("") == NoIcon
  {
    DigitToNumber('3');
    DigitToNumber('2');
    DigitToNumber('1');
  }

  /** An icon is drawn exactly when the priority converts to 1, 2 or 3, and a
      smaller number draws a stronger signal: 1 is the most urgent. */
  lemma IconInverted(p: string, q: string)
    ensures PriorityIcon(p) != NoIcon <==>
      ToNumber(p) == Some(1) || ToNumber(p) == Some(2) || ToNumber(p) == Some(3)
    ensures (ToNumber(p).Some? && ToNumber(q).Some? &&
             1 <= ToNumber(p).value < ToNumber(q).value <= 3) ==>
      Bars(PriorityIcon(p)) > Bars(PriorityIcon(q)) > 0
  {
  }

  /** Because the comparison is loose, text that only looks like a code selects
      its icon too: " 03" is drawn like "3". */
  lemma LooseMatch()
    ensures PriorityIcon(" 03") == CellSignal2
  {
    assert " 03" == " " + "03";
    LeadingWhiteSpaceIgnored(" ", "03");
    assert "03" == "0" + "3";
    LeadingZeroValue("3");
    assert "03"[..1] == "0";
    DigitToNumber('3');
  }
}
