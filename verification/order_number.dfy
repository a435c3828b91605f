/**
 extractOrderNumber of the storefront chat, on the bytes of the message. The second half looks for the
 word "order" in the lower-cased message but goes on in the original at the same offset; the two agree
 only as long as lower-casing has not changed the length of what precedes.
 */
module OrderNumber {
  import opened Decimal
  import opened Utf8

  predicate OrderAt(low: string, i: nat) {
    i + 5 <= |low| && low[i..i + 5] == "order"
  }

  /** The first number above zero that directly follows a '#' at or after position i; 0 if there is none. */
  function HashNumber(msg: string, i: nat): int
    decreases |msg| - i
  {
    if i >= |msg| then 0
    else if msg[i] == '#' && Prefix(msg[i + 1..]) > 0 then Prefix(msg[i + 1..])
    else HashNumber(msg, i + 1)
  }

  /** strings.Index: where "order" first stands, or the length of the text. */
  function FirstOrder(low: string, i: nat): (k: nat)
    requires i <= |low|
    ensures i <= k <= |low|
    ensures forall j :: i <= j < k ==> !OrderAt(low, j)
    ensures k < |low| ==> OrderAt(low, k)
    decreases |low| - i
  {
    if i == |low| || OrderAt(low, i) then i else FirstOrder(low, i + 1)
  }

  predicate Mark(c: char) {
    c == ' ' || c == '#'
  }

  /** Past any spaces and '#' signs. */
  function SkipMarks(s: string): string {
    if s != "" && Mark(s[0]) then SkipMarks(s[1..]) else s
  }

  function From(s: string, i: nat): string {
    if i <= |s| then s[i..] else ""
  }

  /** The number behind the offset at which the lower-cased message has its first "order", or 0. */
  function OrderWordNumber(msg: string, table: string -> string): int {
    var low := ToLower(msg, table);
    var k := FirstOrder(low, 0);
    if k == |low| then 0
    else
      var n := Prefix(SkipMarks(From(msg, k + 5)));
      if n > 0 then n else 0
  }

  function OrderNumber(msg: string, table: string -> string): int {
    if HashNumber(msg, 0) > 0 then HashNumber(msg, 0) else OrderWordNumber(msg, table)
  }

  method ReadNumber(msg: string, start: nat) returns (num: int)
    ensures num == Prefix(From(msg, start))
  {
    num := 0;
    if start <= |msg| {
      num := ParseInt(msg[start..]);
    }
  }

  lemma SkippedFrom(msg: string, start: nat)
    ensures start < |msg| && Mark(msg[start]) ==> SkipMarks(From(msg, start)) == SkipMarks(From(msg, start + 1))
    ensures start >= |msg| || !Mark(msg[start]) ==> SkipMarks(From(msg, start)) == From(msg, start)
  {
    if start < |msg| {
      assert msg[start..][1..] == msg[start + 1..];
    }
  }

  lemma NothingRead()
    ensures Prefix("") == 0
  {
  }

  method ExtractOrderNumber(msg: string, table: string -> string) returns (num: int)
    ensures num == OrderNumber(msg, table)
  {
    hide Prefix, ToLower, SkipMarks, From;
    var i := 0;
    while i < |msg|
      invariant 0 <= i <= |msg|
      invariant HashNumber(msg, 0) == HashNumber(msg, i)
    {
      if msg[i] == '#' {
        num := ParseInt(msg[i + 1..]);
        if num > 0 {
          return;
        }
      }
      i := i + 1;
    }
    var lower := ToLower(msg, table);
    var idx := FirstOrder(lower, 0);
    if idx < |lower| {
      var start := idx + 5;
      while start < |msg| && (msg[start] == ' ' || msg[start] == '#')
        invariant idx + 5 <= start
        invariant SkipMarks(From(msg, idx + 5)) == SkipMarks(From(msg, start))
        decreases |msg| - start
      {
        SkippedFrom(msg, start);
        start := start + 1;
      }
      SkippedFrom(msg, start);
      num := ReadNumber(msg, start);
      if num > 0 {
        return;
      }
    }
    return 0;
  }

  // ---------- numbers behind a '#' ----------

  /** Signs without a number above zero behind them are passed over. */
  lemma {:induction false} NoHashBefore(msg: string, i: nat, k: nat)
    requires i <= k <= |msg| && forall j :: i <= j < k && msg[j] == '#' ==> Prefix(msg[j + 1..]) <= 0
    ensures HashNumber(msg, i) == HashNumber(msg, k)
    decreases k - i
  {
    if i < k {
      NoHashBefore(msg, i + 1, k);
    }
  }

  /**
   The first number above zero that stands directly behind a '#' is the answer, whatever surrounds it: signs
   before it may be followed by anything else.
   */
  lemma HashNumberIsFound(head: string, n: nat, tail: string, table: string -> string)
    requires 0 < n <= MAX && (tail == "" || !IsDigit(tail[0]))
    requires forall j :: 0 <= j < |head| && head[j] == '#' ==> Prefix((head + "#" + Digits(n) + tail)[j + 1..]) <= 0
    ensures OrderNumber(head + "#" + Digits(n) + tail, table) == n
  {
    var msg := head + "#" + Digits(n) + tail;
    assert forall j :: 0 <= j < |head| ==> msg[j] == head[j];
    NoHashBefore(msg, 0, |head|);
    assert msg[|head| + 1..] == Digits(n) + tail;
    PrefixOfPrinted(n, tail);
  }

  // ---------- numbers behind the word "order" ----------

  predicate NoDigits(s: string) {
    forall i :: 0 <= i < |s| ==> !IsDigit(s[i])
  }

  predicate Marks(s: string) {
    forall i :: 0 <= i < |s| ==> Mark(s[i])
  }

  /** "order" in any case. */
  predicate IsOrder(word: string) {
    Ascii(word) && |word| == 5 && forall i :: 0 <= i < 5 ==> LowerChar(word[i]) == "order"[i]
  }

  /** A message: what precedes the word, the word, spaces or '#' signs, a number, and the rest. */
  function Message(head: string, word: string, marks: string, n: nat, tail: string): string {
    head + (word + (marks + (Digits(n) + tail)))
  }

  lemma {:induction false} MarksAreSkipped(marks: string, rest: string)
    requires Marks(marks) && (rest == "" || !Mark(rest[0]))
    ensures SkipMarks(marks + rest) == rest
  {
    if marks == "" {
      assert marks + rest == rest;
    } else {
      assert (marks + rest)[1..] == marks[1..] + rest;
      MarksAreSkipped(marks[1..], rest);
    }
  }

  lemma NoDigitInFront(s: string)
    requires s == "" || !IsDigit(s[0])
    ensures Prefix(s) == 0
  {
    assert LeadingDigits(s) == 0;
    assert s[..0] == "";
  }

  /** Skipping marks never leads to a number in a text without digits, whatever follows its last non-mark. */
  lemma {:induction false} NothingToRead(s: string, rest: string)
    requires NoDigits(s) && (rest == "" || (s != "" && !Mark(s[|s| - 1])))
    ensures Prefix(SkipMarks(s + rest)) == 0
  {
    hide Prefix;
    var all := s + rest;
    if s == "" {
      NothingRead();
      assert all == "";
    } else if Mark(s[0]) {
      assert all[1..] == s[1..] + rest;
      assert rest != "" ==> |s| > 1 && s[1..][|s| - 2] == s[|s| - 1];
      NothingToRead(s[1..], rest);
    } else {
      NoDigitInFront(all);
    }
  }

  /** The last digits of a number stand for a smaller one. */
  lemma {:induction false} SuffixIsSmaller(n: nat, k: nat)
    requires n > 0 && 1 <= k <= |Digits(n)|
    ensures Value(Digits(n)[k..]) < n
  {
    var s := Digits(n);
    if k == |s| {
      assert s[k..] == "";
    } else {
      assert n >= 10;
      var front := Digits(n / 10);
      assert s == front + [DigitChar(n % 10)] && k <= |front|;
      SuffixIsSmaller(n / 10, k);
      var t := s[k..];
      assert t[..|t| - 1] == front[k..] && t[|t| - 1] == DigitChar(n % 10);
    }
  }

  /** Reading from inside the number, or from behind it, does not give the number. */
  lemma TooFar(n: nat, tail: string, k: nat)
    requires 0 < n <= MAX && NoDigits(tail) && k >= 1
    ensures Prefix(SkipMarks(From(Digits(n) + tail, k))) != n
  {
    hide Prefix, Digits;
    var d := Digits(n);
    if k < |d| {
      var text := d[k..] + tail;
      assert From(d + tail, k) == text;
      assert forall i :: 0 <= i < |d[k..]| ==> d[k..][i] == d[k + i] && d[k + i] in d;
      assert text[0] == d[k];
      SuffixIsSmaller(n, k);
      PrefixOfDigits(d[k..], tail);
    } else {
      var text := From(d + tail, k);
      assert k <= |d + tail| ==> text == tail[k - |d|..];
      NothingToRead(text, "");
      assert text + "" == text;
    }
  }

  lemma PrefixOfDigits(d: string, tail: string)
    requires (forall i :: 0 <= i < |d| ==> IsDigit(d[i])) && NoDigits(tail) && Value(d) <= MAX
    ensures Prefix(d + tail) == Value(d)
  {
    var s := d + tail;
    var k := LeadingDigits(s);
    assert forall i :: 0 <= i < |d| ==> s[i] == d[i];
    assert tail != "" ==> s[|d|] == tail[0];
    assert s[..k] == d;
  }

  lemma FirstOrderIs(low: string, k: nat)
    requires OrderAt(low, k) && forall j :: 0 <= j < k ==> !OrderAt(low, j)
    ensures FirstOrder(low, 0) == k < |low|
  {
    hide OrderAt;
    OrderFits(low, k);
  }

  lemma OrderFits(low: string, k: nat)
    requires OrderAt(low, k)
    ensures k < |low|
  {
  }

  lemma OrderBehind(start: string, after: string)
    requires |after| >= 5 && after[..5] == "order"
    ensures OrderAt(start + after, |start|)
  {
    assert (start + after)[|start|..|start| + 5] == after[..5];
  }

  /** Where the search ends in the lower-cased message: behind what precedes the word. */
  lemma FoundAt(head: string, word: string, rest: string, table: string -> string)
    requires IsOrder(word)
    requires forall j :: 0 <= j < |ToLower(head, table)| ==> !OrderAt(ToLower(head + (word + rest), table), j)
    ensures var low := ToLower(head + (word + rest), table); FirstOrder(low, 0) == |ToLower(head, table)| < |low|
  {
    WordBegins(word, rest);
    hide *;
    var start, after := ToLower(head, table), ToLower(word + rest, table);
    WordIsLowered(word, rest, table);
    ToLowerConcat(head, word + rest, table);
    OrderBehind(start, after);
    FirstOrderIs(ToLower(head + (word + rest), table), |start|);
  }

  lemma WordBegins(word: string, rest: string)
    requires IsOrder(word)
    ensures word + rest != "" && (word + rest)[0] < '\U{80}'
  {
    assert (word + rest)[0] == word[0];
  }

  lemma WordIsLowered(word: string, rest: string, table: string -> string)
    requires IsOrder(word)
    ensures var low := ToLower(word + rest, table); |low| >= 5 && low[..5] == "order"
  {
    hide ToLower;
    var s := word + rest;
    LowerLetters(s, 5, table);
    assert forall i :: 0 <= i < 5 ==> s[i] == word[i];
  }

  lemma {:induction false} LowerLetters(s: string, n: nat, table: string -> string)
    requires n <= |s| && forall i :: 0 <= i < n ==> s[i] < '\U{80}'
    ensures var low := ToLower(s, table); |low| >= n && forall i :: 0 <= i < n ==> low[i] == LowerChar(s[i])
  {
    hide ToLower, LowerChar;
    if n > 0 {
      OneAsciiByte(s, table);
      LowerLetters(s[1..], n - 1, table);
      var rest := ToLower(s[1..], table);
      forall i | 0 <= i < n ensures ToLower(s, table)[i] == LowerChar(s[i]) {
        if i > 0 {
          assert rest[i - 1] == LowerChar(s[1..][i - 1]);
        }
      }
    }
  }

  /** The number is read if the offset falls on the marks or directly on the number. */
  lemma ReadFromMarks(head: string, word: string, marks: string, n: nat, tail: string, p: nat)
    requires |word| == 5 && Marks(marks) && 0 < n <= MAX && (tail == "" || !IsDigit(tail[0]))
    requires |head| + 5 <= p <= |head| + 5 + |marks|
    ensures Prefix(SkipMarks(From(Message(head, word, marks, n, tail), p))) == n
  {
    hide Prefix, SkipMarks, Digits;
    var rest := Digits(n) + tail;
    var left := marks[p - |head| - 5..];
    assert Message(head, word, marks, n, tail)[p..] == left + rest;
    assert Digits(n)[0] in Digits(n) && rest[0] == Digits(n)[0];
    assert Marks(left);
    MarksAreSkipped(left, rest);
    PrefixOfPrinted(n, tail);
  }

  /** Nothing is read if it falls before the end of the word. */
  lemma ReadTooEarly(head: string, word: string, marks: string, n: nat, tail: string, p: nat)
    requires IsOrder(word) && NoDigits(head) && p < |head| + 5
    ensures Prefix(SkipMarks(From(Message(head, word, marks, n, tail), p))) == 0
  {
    hide Prefix, SkipMarks, Digits;
    var rest := marks + (Digits(n) + tail);
    var left := (head + word)[p..];
    WordHasNoDigits(word);
    assert Message(head, word, marks, n, tail) == head + word + rest;
    assert From(head + word + rest, p) == left + rest;
    assert forall i :: 0 <= i < |left| ==> left[i] == (head + word)[p + i];
    assert left[|left| - 1] == word[4];
    NothingToRead(left, rest);
  }

  lemma WordHasNoDigits(word: string)
    requires IsOrder(word)
    ensures NoDigits(word) && !Mark(word[4])
  {
    assert forall i :: 0 <= i < 5 ==> LowerChar(word[i]) == "order"[i];
    assert "order"[0] == 'o' && "order"[1] == 'r' && "order"[2] == 'd' && "order"[3] == 'e' && "order"[4] == 'r';
  }

  /** The number is not read if it falls inside or behind the number. */
  lemma ReadTooLate(head: string, word: string, marks: string, n: nat, tail: string, p: nat)
    requires |word| == 5 && 0 < n <= MAX && NoDigits(tail) && p > |head| + 5 + |marks|
    ensures Prefix(SkipMarks(From(Message(head, word, marks, n, tail), p))) != n
  {
    hide Prefix, SkipMarks, Digits;
    var before, rest := head + word + marks, Digits(n) + tail;
    assert Message(head, word, marks, n, tail) == before + rest;
    assert From(before + rest, p) == From(rest, p - |before|);
    TooFar(n, tail, p - |before|);
  }

  /** What the message's only candidate is: the number read at the offset of the lower-cased word. */
  lemma CandidateOnly(head: string, word: string, marks: string, n: nat, tail: string, table: string -> string)
    requires IsOrder(word)
    requires var msg, low := Message(head, word, marks, n, tail), ToLower(Message(head, word, marks, n, tail), table);
             HashNumber(msg, 0) <= 0 && forall j :: 0 <= j < |ToLower(head, table)| ==> !OrderAt(low, j)
    ensures var msg := Message(head, word, marks, n, tail);
            var read := Prefix(SkipMarks(From(msg, |ToLower(head, table)| + 5)));
            OrderNumber(msg, table) == if read > 0 then read else 0
  {
    hide Prefix, SkipMarks, Digits, From, ToLower;
    FoundAt(head, word, marks + (Digits(n) + tail), table);
  }

  /** Where the scan for the number ends up from offset p: at the first character that is no mark. */
  function ScanEnd(msg: string, p: nat): nat
    decreases |msg| - p
  {
    if p < |msg| && Mark(msg[p]) then ScanEnd(msg, p + 1) else p
  }

  lemma {:induction false} ReadsAtScanEnd(msg: string, p: nat)
    ensures SkipMarks(From(msg, p)) == From(msg, ScanEnd(msg, p))
    ensures ScanEnd(msg, p) >= p
    decreases |msg| - p
  {
    hide SkipMarks, From;
    SkippedFrom(msg, p);
    if p < |msg| && Mark(msg[p]) {
      ReadsAtScanEnd(msg, p + 1);
    }
  }

  lemma {:induction false} ScanStopsAt(msg: string, p: nat, q: nat)
    requires p <= q < |msg| && !Mark(msg[q])
    ensures ScanEnd(msg, p) <= q
    ensures (forall i :: p <= i < q ==> Mark(msg[i])) ==> ScanEnd(msg, p) == q
    decreases q - p
  {
    if p < q && Mark(msg[p]) {
      ScanStopsAt(msg, p + 1, q);
    }
  }

  /** The scan ends at the number exactly from offsets behind the word and not behind the number's first digit. */
  lemma ScanEndIff(head: string, word: string, marks: string, n: nat, tail: string, p: nat)
    requires IsOrder(word) && Marks(marks) && n > 0
    ensures var q := |head| + 5 + |marks|;
            ScanEnd(Message(head, word, marks, n, tail), p) == q <==> |head| + 5 <= p <= q
  {
    hide Digits, ScanEnd, IsOrder;
    var msg, q := Message(head, word, marks, n, tail), |head| + 5 + |marks|;
    WordEnds(word);
    NumberIsNoMark(n, tail);
    assert msg[|head| + 4] == word[4];
    assert forall i :: 0 <= i < |marks| ==> msg[|head| + 5 + i] == marks[i];
    assert |msg| > q && msg[q] == (Digits(n) + tail)[0];
    ReadsAtScanEnd(msg, p);
    if p < |head| + 5 {
      ScanStopsAt(msg, p, |head| + 4);
    } else if p <= q {
      ScanStopsAt(msg, p, q);
    }
  }

  lemma WordEnds(word: string)
    requires IsOrder(word)
    ensures |word| == 5 && !Mark(word[4])
  {
    WordHasNoDigits(word);
  }

  lemma NumberIsNoMark(n: nat, tail: string)
    requires n > 0
    ensures Digits(n) + tail != "" && !Mark((Digits(n) + tail)[0])
  {
    assert Digits(n)[0] in Digits(n);
  }

  /**
   Exactly when the scan behind the first "order" reaches the number that follows it, whatever else the
   message holds: when lower-casing does not shorten what precedes the word, and lengthens it by no more than
   the marks between word and number. What is read there is the answer of this half.
   */
  lemma ScanReachesNumberIff(head: string, word: string, marks: string, n: nat, tail: string, table: string -> string)
    requires IsOrder(word) && Marks(marks) && n > 0
    requires forall j :: 0 <= j < |ToLower(head, table)| ==> !OrderAt(ToLower(Message(head, word, marks, n, tail), table), j)
    ensures var msg, k := Message(head, word, marks, n, tail), |ToLower(head, table)|;
            var end := ScanEnd(msg, k + 5);
            && (end == |head| + 5 + |marks| <==> |head| <= k <= |head| + |marks|)
            && OrderWordNumber(msg, table) == if Prefix(From(msg, end)) > 0 then Prefix(From(msg, end)) else 0
  {
    hide Prefix, SkipMarks, Digits, From, ToLower, ScanEnd, IsOrder, OrderAt;
    var msg, k := Message(head, word, marks, n, tail), |ToLower(head, table)|;
    FoundAt(head, word, marks + (Digits(n) + tail), table);
    ScanEndIff(head, word, marks, n, tail, k + 5);
    ReadsAtScanEnd(msg, k + 5);
  }

  /**
   In terms of the answer: in a message without number behind a '#' and without further digits, which might
   repeat the number, it is found exactly when lower-casing does not shorten what precedes the word, and lengthens it by no
   more than the marks between word and number.
   */
  lemma OrderNumberIff(head: string, word: string, marks: string, n: nat, tail: string, table: string -> string)
    requires IsOrder(word) && Marks(marks) && 0 < n <= MAX && NoDigits(head) && NoDigits(tail)
    requires var msg, low := Message(head, word, marks, n, tail), ToLower(Message(head, word, marks, n, tail), table);
             HashNumber(msg, 0) <= 0 && forall j :: 0 <= j < |ToLower(head, table)| ==> !OrderAt(low, j)
    ensures var msg, k := Message(head, word, marks, n, tail), |ToLower(head, table)|;
            && (OrderNumber(msg, table) == n <==> |head| <= k <= |head| + |marks|)
            && (k < |head| ==> OrderNumber(msg, table) == 0)
  {
    hide *;
    CandidateOnly(head, word, marks, n, tail, table);
    var p := |ToLower(head, table)| + 5;
    WordShape(word, tail);
    if p < |head| + 5 {
      ReadTooEarly(head, word, marks, n, tail, p);
    } else if p <= |head| + 5 + |marks| {
      ReadFromMarks(head, word, marks, n, tail, p);
    } else {
      ReadTooLate(head, word, marks, n, tail, p);
    }
  }

  lemma WordShape(word: string, tail: string)
    requires IsOrder(word) && NoDigits(tail)
    ensures |word| == 5 && (tail == "" || !IsDigit(tail[0]))
  {
  }

  /** So an ASCII text before the word, with or without digits, does no harm: the number is found. */
  lemma OrderNumberIsFound(head: string, word: string, marks: string, n: nat, tail: string, table: string -> string)
    requires IsOrder(word) && Marks(marks) && 0 < n <= MAX && (tail == "" || !IsDigit(tail[0])) && Ascii(head)
    requires var msg, low := Message(head, word, marks, n, tail), ToLower(Message(head, word, marks, n, tail), table);
             HashNumber(msg, 0) <= 0 && forall j :: 0 <= j < |ToLower(head, table)| ==> !OrderAt(low, j)
    ensures OrderNumber(Message(head, word, marks, n, tail), table) == n
  {
    hide *;
    CandidateOnly(head, word, marks, n, tail, table);
    ToLowerAscii(head, table);
    WordShape(word, "");
    ReadFromMarks(head, word, marks, n, tail, |head| + 5);
  }

  /** A message without number behind a '#' and without the word yields none. */
  lemma NothingFound(msg: string, table: string -> string)
    requires forall j :: 0 <= j < |msg| && msg[j] == '#' ==> Prefix(msg[j + 1..]) <= 0
    requires forall j :: 0 <= j < |ToLower(msg, table)| ==> !OrderAt(ToLower(msg, table), j)
    ensures OrderNumber(msg, table) == 0
  {
    hide Prefix, ToLower, OrderAt;
    NoHashBefore(msg, 0, |msg|);
    HashEnds(msg);
    var k := FirstOrder(ToLower(msg, table), 0);
  }

  lemma SignThenBlank()
    ensures var msg := "Order # 1234"; forall j :: 0 <= j < |msg| && msg[j] == '#' ==> Prefix(msg[j + 1..]) <= 0
  {
    var msg := "Order # 1234";
    assert msg == ['O', 'r', 'd', 'e', 'r', ' ', '#', ' ', '1', '2', '3', '4'];
    hide Prefix;
    assert msg[7..][0] == ' ';
    NoDigitInFront(msg[7..]);
  }

  /** A message that begins with the word, with a '#' and blanks before the number. */
  lemma WordThenSign(table: string -> string)
    ensures OrderNumber("Order # 1234", table) == 1234
  {
    var msg := "Order # 1234";
    SignThenBlank();
    hide Digits, Prefix, HashNumber, OrderNumber, ToLower, OrderAt;
    NoHashBefore(msg, 0, |msg|);
    HashEnds(msg);
    DigitsOf1234();
    assert Message("", "Order", " # ", 1234, "") == msg;
    CapitalOrder();
    NothingLowered(table);
    OrderNumberIsFound("", "Order", " # ", 1234, "", table);
  }

  lemma CapitalOrder()
    ensures IsOrder("Order") && Marks(" # ")
  {
    assert "Order" == ['O', 'r', 'd', 'e', 'r'] && "order" == ['o', 'r', 'd', 'e', 'r'];
  }

  lemma NothingLowered(table: string -> string)
    ensures ToLower("", table) == ""
  {
  }

  /** In "\u0130 order 1234" the first letter loses a byte when lowered, and the number is missed. */
  lemma ShortenedHeadLosesTheNumber(table: string -> string)
    ensures OrderNumber("\U{C4}\U{B0} order 1234", table) == 0
  {
    ExampleMessage(table);
    var head := "\U{C4}\U{B0} ";
    assert |head| == 3 && |"i "| == 2;
    hide *;
    OrderNumberIff(head, "order", " ", 1234, "", table);
  }

  lemma ExampleMessage(table: string -> string)
    ensures var head, msg := "\U{C4}\U{B0} ", "\U{C4}\U{B0} order 1234";
            && Message(head, "order", " ", 1234, "") == msg
            && IsOrder("order") && Marks(" ") && NoDigits(head) && NoDigits("")
            && HashNumber(msg, 0) <= 0 && ToLower(head, table) == "i "
            && forall j :: 0 <= j < |ToLower(head, table)| ==> !OrderAt(ToLower(msg, table), j)
  {
    hide ToLower, OrderAt, HashNumber, Digits;
    var msg := "\U{C4}\U{B0} order 1234";
    DottedCapitalShrinks(table);
    DigitsOf1234();
    assert Message("\U{C4}\U{B0} ", "order", " ", 1234, "") == msg;
    NoHashBefore(msg, 0, |msg|);
    HashEnds(msg);
    FoundLower(msg, table);
  }

  lemma HashEnds(msg: string)
    ensures HashNumber(msg, |msg|) == 0
  {
  }

  lemma DottedCapitalShrinks(table: string -> string)
    ensures ToLower("\U{C4}\U{B0} ", table) == "i "
  {
    var s := "\U{C4}\U{B0} ";
    assert RuneLen(s) == 2 && s[..2] == "\U{C4}\U{B0}" && s[2..] == " ";
    OneAsciiByte(" ", table);
    assert ToLower("", table) == "";
  }

  lemma FoundLower(msg: string, table: string -> string)
    requires msg == "\U{C4}\U{B0} order 1234"
    ensures !OrderAt(ToLower(msg, table), 0) && !OrderAt(ToLower(msg, table), 1)
  {
    DottedCapitalShrinks(table);
    hide ToLower;
    assert msg == "\U{C4}\U{B0} " + "order 1234";
    ToLowerConcat("\U{C4}\U{B0} ", "order 1234", table);
    var low := ToLower(msg, table);
    assert low[0] == 'i' && low[1] == ' ';
    assert "order"[0] == 'o';
    assert forall i :: 0 <= i <= 1 && i + 5 <= |low| ==> low[i..i + 5][0] == low[i];
  }

  lemma DigitsOf1234()
    ensures Digits(1234) == "1234"
  {
    assert Digits(1) == "1" && Digits(12) == Digits(1) + "2" && Digits(123) == Digits(12) + "3";
    assert Digits(1234) == Digits(123) + "4";
  }
}
