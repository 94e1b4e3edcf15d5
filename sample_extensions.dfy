/**
 * The three built-in extensions: a calculator, a weather placeholder and a
 * note taker. Calculator and weather answer from the query alone; the note
 * taker keeps a list of notes that its queries grow.
 */
module SampleExtensions {

  import opened Wrappers
  import opened Text
  import opened ExtensionContract

  // ===== Calculator =====

  // A character of the operator class `[+\-*/]`.
  predicate IsOperator(c: char) {
    c == '+' || c == '-' || c == '*' || c == '/'
  }

  /** Where a run of `\d` starting at `i` ends. */
  function DigitsEnd(s: string, i: nat): (r: nat)
    requires i <= |s|
    ensures i <= r <= |s|
    ensures forall k :: i <= k < r ==> IsDigit(s[k])
    decreases |s| - i
  {
    if i < |s| && IsDigit(s[i]) then DigitsEnd(s, i + 1) else i
  }

  /** Where a run of `\s` starting at `i` ends. */
  function SpacesEnd(s: string, i: nat): (r: nat)
    requires i <= |s|
    ensures i <= r <= |s|
    ensures forall k :: i <= k < r ==> IsRegexSpace(s[k])
    decreases |s| - i
  {
    if i < |s| && IsRegexSpace(s[i]) then SpacesEnd(s, i + 1) else i
  }

  /**
   * Where `\d+\.?\d*` ends when matched greedily at `i`, if it matches there.
   * Shorter matches need not be tried: each of them is followed by a digit
   * or a dot, which neither `\s` nor an operator accepts.
   */
  function NumberEnd(s: string, i: nat): (r: Option<nat>)
    requires i <= |s|
    ensures r.Some? ==> i < r.value <= |s|
    ensures r.Some? ==> forall k :: i <= k < r.value ==> IsDigit(s[k]) || s[k] == '.'
  {
    var d := DigitsEnd(s, i);
    if d == i then None
    else if d < |s| && s[d] == '.' then Some(DigitsEnd(s, d + 1))
    else Some(d)
  }

  // The span of a match of `(\d+\.?\d*)\s*([+\-*/])\s*(\d+\.?\d*)` and where its operator is.
  datatype MathMatch = MathMatch(start: nat, operator: nat, end: nat)

  /** A matched span holds exactly one operator character, at `operator`. */
  ghost predicate OneOperator(s: string, m: MathMatch) {
    && m.start < m.operator < m.end <= |s|
    && IsOperator(s[m.operator])
    && forall k :: m.start <= k < m.end && k != m.operator ==> !IsOperator(s[k])
  }

  /** The pattern matched at offset `i`. */
  function MatchAt(s: string, i: nat): (r: Option<MathMatch>)
    requires i <= |s|
    ensures r.Some? ==> r.value.start == i && OneOperator(s, r.value)
  {
    match NumberEnd(s, i)
    case None => None
    case Some(left) =>
      var op := SpacesEnd(s, left);
      if op < |s| && IsOperator(s[op]) then
        match NumberEnd(s, SpacesEnd(s, op + 1))
        case None => None
        case Some(right) => Some(MathMatch(i, op, right))
      else None
  }

  /** `Regex.find`: the match at the leftmost offset from `i` on. */
  function FindMatch(s: string, i: nat): (r: Option<MathMatch>)
    requires i <= |s|
    ensures r.Some? ==> i <= r.value.start && OneOperator(s, r.value)
    decreases |s| - i
  {
    match MatchAt(s, i)
    case Some(m) => Some(m)
    case None => if i < |s| then FindMatch(s, i + 1) else None
  }

  /** `extractMathExpression`: the text of the first match in the query. */
  function ExtractMathExpression(query: string): Option<string> {
    match FindMatch(query, 0)
    case None => None
    case Some(m) => Some(query[m.start..m.end])
  }

  function Pow10(n: nat): (r: nat)
    ensures r > 0
  {
    if n == 0 then 1 else 10 * Pow10(n - 1)
  }

  /** The number written by a string of decimal digits. */
  function DigitsValue(ds: string): nat
    requires forall k :: 0 <= k < |ds| ==> IsDigit(ds[k])
  {
    if ds == [] then 0
    else
      var last := ds[|ds| - 1];
      assert IsDigit(last);
      10 * DigitsValue(ds[..|ds| - 1]) + (last as int - '0' as int)
  }

  predicate AllDigits(s: string) {
    forall k :: 0 <= k < |s| ==> IsDigit(s[k])
  }

  /** `toDoubleOrNull` on decimal literals (`12`, `12.`, `12.5`, `.5`), as an exact real. */
  function DecimalValue(s: string): Option<real> {
    match IndexOf(s, '.')
    case None =>
      if s != [] && AllDigits(s) then Some(DigitsValue(s) as real) else None
    case Some(k) =>
      var whole, fraction := s[..k], s[k + 1..];
      if AllDigits(whole) && AllDigits(fraction) && |whole| + |fraction| > 0
      then Some(DigitsValue(whole) as real + DigitsValue(fraction) as real / Pow10(|fraction|) as real)
      else None
  }

  // `expression.find { it in "+-*/" }`.
  function FirstOperator(s: string): Option<char> {
    if s == [] then None
    else if IsOperator(s[0]) then Some(s[0])
    else FirstOperator(s[1..])
  }

  /** Applies an operator; division by zero has no result. */
  function Apply(a: real, operator: char, b: real): Option<real> {
    match operator
    case '+' => Some(a + b)
    case '-' => Some(a - b)
    case '*' => Some(a * b)
    case '/' => if b != 0.0 then Some(a / b) else None
    case _ => None
  }

  /**
   * `evaluateExpression` as written: split around the operators, insist on
   * three parts, then read operand, operator and operand.
   */
  function Evaluate(expression: string): Option<real> {
    var parts := Split(expression, IsOperator);
    if |parts| != 3 then None
    else
      match (DecimalValue(Trim(parts[0])), FirstOperator(expression), DecimalValue(Trim(parts[2])))
      case (Some(a), Some(operator), Some(b)) => Apply(a, operator, b)
      case _ => None
  }

  /**
   * Splitting drops the separators, so every expression the pattern extracts,
   * which holds exactly one operator, splits into two parts and is rejected.
   */
  lemma EvaluateRejectsEveryMatch(query: string, expression: string)
    requires ExtractMathExpression(query) == Some(expression)
    ensures |Split(expression, IsOperator)| == 2
    ensures Evaluate(expression) == None
  {
    var m := FindMatch(query, 0).value;
    assert expression == query[m.start..m.end];
    SplitAtOneSeparator(expression, IsOperator, m.operator - m.start);
  }

  /** The calculator's trigger: a calculation word or an operator in the lower-cased query. */
  predicate AsksToCalculate(query: string) {
    var lower := Lower(query);
    || Contains(lower, "calculate") || Contains(lower, "what's") || Contains(lower, "what is")
    || Contains(lower, "+") || Contains(lower, "-") || Contains(lower, "*") || Contains(lower, "/")
  }

  /** `CalculatorExtension.onAIQuery`; as shipped it answers no query at all. */
  function CalculatorReply(query: string): (r: Option<ExtensionResponse>)
    ensures r == None
  {
    if !AsksToCalculate(query) then None
    else
      match ExtractMathExpression(query)
      case None => None
      case Some(expression) =>
        EvaluateRejectsEveryMatch(query, expression);
        match Evaluate(expression)
        case None => None
        // A result would give "expression = result" at priority 10; by the lemma there is none.
  }

  /** No match starts on a run of non-digits, so the leftmost search skips it. */
  lemma {:induction false} FindMatchSkipsNonDigits(s: string, i: nat, j: nat)
    requires i <= j <= |s|
    requires forall k :: i <= k < j ==> !IsDigit(s[k])
    ensures FindMatch(s, i) == FindMatch(s, j)
    decreases j - i
  {
    if i < j {
      FindMatchSkipsNonDigits(s, i + 1, j);
    }
  }

  /** "calculate 2+2" does contain the expression "2+2", and still gets no answer. */
  lemma CalculatorDocumentedExample()
    ensures ExtractMathExpression("calculate 2+2") == Some("2+2")
    ensures CalculatorReply("calculate 2+2") == None
  {
    var q := "calculate 2+2";
    assert DigitsEnd(q, 11) == 11;
    assert DigitsEnd(q, 10) == 11;
    assert NumberEnd(q, 10) == Some(11);
    assert SpacesEnd(q, 11) == 11;
    assert SpacesEnd(q, 12) == 12;
    assert DigitsEnd(q, 13) == 13;
    assert DigitsEnd(q, 12) == 13;
    assert NumberEnd(q, 12) == Some(13);
    assert MatchAt(q, 10) == Some(MathMatch(10, 11, 13));
    assert FindMatch(q, 10) == Some(MathMatch(10, 11, 13));
    FindMatchSkipsNonDigits(q, 0, 10);
    assert q[10..13] == "2+2";
  }

  /** The first operator of a string is the one at `k` when none comes before it. */
  lemma {:induction false} FirstOperatorAt(s: string, k: nat)
    requires k < |s| && IsOperator(s[k])
    requires forall j :: 0 <= j < k ==> !IsOperator(s[j])
    ensures FirstOperator(s) == Some(s[k])
  {
    if k > 0 {
      FirstOperatorAt(s[1..], k - 1);
    }
  }

  /** Reads both operands and applies the operator; any operand that is not a number gives nothing. */
  function EvaluateOperands(left: string, operator: char, right: string): Option<real> {
    match (DecimalValue(Trim(left)), DecimalValue(Trim(right)))
    case (Some(a), Some(b)) => Apply(a, operator, b)
    case _ => None
  }

  /**
   * The evaluation `evaluateExpression` evidently intends: splitting around
   * the one operator leaves two operands, not three.
   */
  function EvaluateIntended(expression: string): Option<real> {
    var parts := Split(expression, IsOperator);
    if |parts| != 2 then None
    else
      match FirstOperator(expression)
      case None => None
      case Some(operator) => EvaluateOperands(parts[0], operator, parts[1])
  }

  /** An expression with one operator, at `k`, is evaluated from the text on either side of it. */
  lemma EvaluateIntendedAt(e: string, k: nat)
    requires k < |e| && IsOperator(e[k])
    requires forall j :: 0 <= j < |e| && j != k ==> !IsOperator(e[j])
    ensures EvaluateIntended(e) == EvaluateOperands(e[..k], e[k], e[k + 1..])
  {
    SplitAtOneSeparator(e, IsOperator, k);
    FirstOperatorAt(e, k);
  }

  /**
   * The leftmost match is the extracted text, and it holds its one operator
   * at offset `operator - start`.
   */
  lemma MatchedSpan(query: string, m: MathMatch)
    requires FindMatch(query, 0) == Some(m)
    ensures var e, k := query[m.start..m.end], m.operator - m.start;
      && ExtractMathExpression(query) == Some(e)
      && 0 <= k < |e| && IsOperator(e[k])
      && (forall j :: 0 <= j < |e| && j != k ==> !IsOperator(e[j]))
  {
    var e, k := query[m.start..m.end], m.operator - m.start;
    forall j | 0 <= j < |e| && j != k ensures !IsOperator(e[j]) {
      assert e[j] == query[m.start + j];
    }
  }

  /** Division by an operand that reads as zero gives no value rather than an error. */
  lemma IntendedDivisionByZero(left: string, right: string)
    requires DecimalValue(Trim(right)) == Some(0.0)
    ensures EvaluateOperands(left, '/', right) == None
  {
  }

  /** The calculator's answer value with the intended evaluation. */
  function IntendedCalculatorValue(query: string): Option<real> {
    if !AsksToCalculate(query) then None
    else
      match ExtractMathExpression(query)
      case None => None
      case Some(expression) => EvaluateIntended(expression)
  }

  /** A query that starts with "calculate" in lower case triggers the calculator. */
  lemma CalculateTriggers(query: string)
    requires StartsWith(query, "calculate")
    ensures AsksToCalculate(query)
  {
    var lower := Lower(query);
    assert query[..9] == "calculate";
    assert lower[..9] == "calculate" by {
      forall k | 0 <= k < 9 ensures lower[k] == "calculate"[k] {
        assert query[k] == "calculate"[k];
      }
    }
    PrefixIsContained(lower, "calculate");
  }

  /** A single character that is not white space is its own trimmed form. */
  lemma TrimOneCharacter(s: string)
    requires |s| == 1 && !IsWhitespace(s[0])
    ensures Trim(s) == s
  {
    assert TrimStart(s) == s;
    assert TrimEnd(s) == s;
  }

  /** A single digit reads as its value. */
  lemma OneDigitValue(s: string)
    requires |s| == 1 && IsDigit(s[0])
    ensures DecimalValue(s) == Some((s[0] as int - '0' as int) as real)
  {
    assert IndexOf(s[1..], '.') == None;
    assert IndexOf(s, '.') == None;
    assert s[..0] == [];
    assert DigitsValue(s) == s[0] as int - '0' as int;
  }

  /** The operand "2" reads as 2. */
  lemma OperandTwo(s: string)
    requires |s| == 1 && s[0] == '2'
    ensures DecimalValue(Trim(s)) == Some(2.0)
  {
    TrimOneCharacter(s);
    OneDigitValue(s);
  }

  /** Two operands that read as 2, added, give 4. */
  lemma TwoOperandsAdded(left: string, right: string)
    requires |left| == 1 && left[0] == '2' && |right| == 1 && right[0] == '2'
    ensures EvaluateOperands(left, '+', right) == Some(4.0)
  {
    OperandTwo(left);
    OperandTwo(right);
  }

  /** With two parts expected, "2+2" evaluates to 4. */
  lemma TwoPlusTwoIsFour(e: string)
    requires |e| == 3 && e[0] == '2' && e[1] == '+' && e[2] == '2'
    ensures EvaluateIntended(e) == Some(4.0)
  {
    assert forall j :: 0 <= j < |e| && j != 1 ==> e[j] == '2';
    EvaluateIntendedAt(e, 1);
    TwoOperandsAdded(e[..1], e[2..]);
  }

  /** With the intended evaluation, "calculate 2+2" is answered with 4. */
  lemma IntendedCalculatorAddsTwoAndTwo()
    ensures IntendedCalculatorValue("calculate 2+2") == Some(4.0)
  {
    CalculatorDocumentedExample();
    CalculateTriggers("calculate 2+2");
    TwoPlusTwoIsFour("2+2");
  }

  /** The calculator's AI hook; it never throws. */
  function CalculatorQueryHook(): (string, LauncherContext) -> Outcome<Option<ExtensionResponse>> {
    (query: string, context: LauncherContext) => Ok(CalculatorReply(query))
  }

  function CalculatorExtension(): LauncherExtension {
    LauncherExtension(
      id := "com.launcher.calculator",
      name := "Calculator",
      version := "1.0.0",
      author := "AI Launcher Team",
      description := "Performs simple calculations",
      onAIQuery := CalculatorQueryHook())
  }

  // ===== Weather =====

  /**
   * `WeatherExtension.onAIQuery`: a placeholder answer to exactly the queries
   * that mention weather or temperature in any case, always at priority 8
   * with one settings action.
   */
  function WeatherReply(query: string): (r: Option<ExtensionResponse>)
    ensures r.Some? <==> Contains(Lower(query), "weather") || Contains(Lower(query), "temperature")
    ensures r.Some? ==> r.value.priority == 8 && r.value.actions == [OpenSettings(Some("weather_settings"))]
  {
    var lower := Lower(query);
    if !Contains(lower, "weather") && !Contains(lower, "temperature") then None
    else Some(ExtensionResponse(
      text := Some("Weather extension is installed but not configured. Connect to a weather API to get real data."),
      actions := [OpenSettings(Some("weather_settings"))],
      priority := 8))
  }

  /** The weather extension ignores case: a query and its lower-cased form get the same answer. */
  lemma WeatherIgnoresCase(query: string)
    ensures WeatherReply(Lower(query)) == WeatherReply(query)
  {
    LowerIdempotent(query);
  }

  /** The weather extension's AI hook; it never throws. */
  function WeatherQueryHook(): (string, LauncherContext) -> Outcome<Option<ExtensionResponse>> {
    (query: string, context: LauncherContext) => Ok(WeatherReply(query))
  }

  function WeatherExtension(): LauncherExtension {
    LauncherExtension(
      id := "com.launcher.weather",
      name := "Weather",
      version := "1.0.0",
      author := "AI Launcher Team",
      description := "Shows current weather information",
      permissions := [AccessLocation, NetworkAccess],
      onAIQuery := WeatherQueryHook(),
      provideWidget := Ok(Some(ExtensionWidget(
        id := "com.launcher.weather.widget",
        name := "Weather Widget",
        description := "Shows current weather",
        defaultSize := WidgetSize(2, 2)))))
  }

  // ===== Notes =====

  /** A query that saves a note. */
  predicate IsSaveQuery(query: string) {
    StartsWith(Lower(query), "note:") || StartsWith(Lower(query), "remember:")
  }

  /** A query that lists the notes. */
  predicate IsListQuery(query: string) {
    Contains(Lower(query), "show notes") || Contains(Lower(query), "my notes")
  }

  /** The note a save query stores: what follows its first ':', trimmed. */
  function NoteText(query: string): string {
    Trim(SubstringAfter(query, ':'))
  }

  /** The bulleted listing of the notes, or the placeholder when there are none. */
  function NotesListing(notes: seq<string>): string {
    if notes == [] then "No notes saved yet."
    else Join(seq(|notes|, i requires 0 <= i < |notes| => "• " + notes[i]), "\n")
  }

  /**
   * `NotesExtension.onAIQuery` from the notes held so far: the answer and the
   * notes afterwards. Every answer is at priority 9, and the notes are only
   * ever kept or grown by one at the end.
   */
  function NotesReply(notes: seq<string>, query: string): (r: (Option<ExtensionResponse>, seq<string>))
    ensures r.0.Some? ==> r.0.value.priority == 9
    ensures |notes| <= |r.1| <= |notes| + 1 && r.1[..|notes|] == notes
  {
    if IsSaveQuery(query) then
      var note := NoteText(query);
      (Some(ExtensionResponse(text := Some("Note saved: \"" + note + "\""), priority := 9)), notes + [note])
    else if IsListQuery(query) then
      (Some(ExtensionResponse(text := Some("Your notes:\n" + NotesListing(notes)), priority := 9)), notes)
    else (None, notes)
  }

  /**
   * The notes extension answers save and listing queries, both at priority 9,
   * and nothing else; saving is checked first, a listing keeps the notes, and
   * with no notes the listing says so.
   */
  lemma NotesReplyCases(notes: seq<string>, query: string)
    ensures NotesReply(notes, query).0.Some? <==> IsSaveQuery(query) || IsListQuery(query)
    ensures !IsSaveQuery(query) ==> NotesReply(notes, query).1 == notes
    ensures IsSaveQuery(query) ==> NotesReply(notes, query).1 == notes + [NoteText(query)]
    ensures !IsSaveQuery(query) && IsListQuery(query) && notes == [] ==>
      NotesReply(notes, query).0.value.text == Some("Your notes:\nNo notes saved yet.")
  {
    if !IsSaveQuery(query) && IsListQuery(query) && notes == [] {
      assert "Your notes:\n" + NotesListing(notes) == "Your notes:\nNo notes saved yet.";
    }
  }

  /** Notes are only ever appended, one per save query; everything else keeps them. */
  lemma NotesOnlyGrowBySaving(notes: seq<string>, query: string)
    ensures var after := NotesReply(notes, query).1;
      && |after| == |notes| + (if IsSaveQuery(query) then 1 else 0)
      && after[..|notes|] == notes
  {
  }

  /** The listing of `notes + [note]` ends with the bullet line of `note`. */
  lemma ListingEndsWithNewest(notes: seq<string>, note: string)
    ensures EndsWith(NotesListing(notes + [note]), "• " + note)
  {
    var after := notes + [note];
    var lines := seq(|after|, i requires 0 <= i < |after| => "• " + after[i]);
    var line := "• " + note;
    if notes == [] {
      assert lines == [line];
    } else {
      var before := seq(|notes|, i requires 0 <= i < |notes| => "• " + notes[i]);
      assert lines == before + [line];
      JoinSnoc(before, line, "\n");
    }
  }

  /** A saved note comes back, last, on the next listing. */
  lemma SavedNoteIsListed(notes: seq<string>, save: string, list: string)
    requires IsSaveQuery(save) && IsListQuery(list) && !IsSaveQuery(list)
    ensures NotesReply(notes, save).1 == notes + [NoteText(save)]
    ensures var listed := NotesReply(NotesReply(notes, save).1, list).0;
      && listed.Some? && listed.value.text.Some?
      && EndsWith(listed.value.text.value, "• " + NoteText(save))
  {
    var note := NoteText(save);
    var line, text := "• " + note, "Your notes:\n" + NotesListing(notes + [note]);
    assert EndsWith(text, line) by {
      ListingEndsWithNewest(notes, note);
      EndsWithAfterPrefix("Your notes:\n", NotesListing(notes + [note]), line);
    }
    assert NotesReply(NotesReply(notes, save).1, list).0 == Some(ExtensionResponse(text := Some(text), priority := 9)) by {
      SaveReply(notes, save);
      ListReply(notes + [note], list);
    }
    SaveReply(notes, save);
  }

  /** A save query appends its note. */
  lemma SaveReply(notes: seq<string>, save: string)
    requires IsSaveQuery(save)
    ensures NotesReply(notes, save).1 == notes + [NoteText(save)]
  {
  }

  /** A listing query that does not save answers with the listing. */
  lemma ListReply(notes: seq<string>, list: string)
    requires IsListQuery(list) && !IsSaveQuery(list)
    ensures NotesReply(notes, list).0 == Some(ExtensionResponse(text := Some("Your notes:\n" + NotesListing(notes)), priority := 9))
  {
  }

  /** A string that ends with `line` still does after something is put in front of it. */
  lemma EndsWithAfterPrefix(prefix: string, s: string, line: string)
    requires EndsWith(s, line)
    ensures EndsWith(prefix + s, line)
  {
    var t := prefix + s;
    assert t[|t| - |line|..] == s[|s| - |line|..];
  }

  /** The note-taking extension; it owns a list of notes that save queries grow. */
  class NotesExtension {
    var notes: seq<string>

    constructor ()
      ensures notes == []
    {
      notes := [];
    }

    /** `onAIQuery`: answers the query and records a note when asked to save one. */
    method OnAIQuery(query: string, context: LauncherContext) returns (response: Option<ExtensionResponse>)
      modifies this
      ensures (response, notes) == NotesReply(old(notes), query)
    {
      if IsSaveQuery(query) {
        var note := NoteText(query);
        notes := notes + [note];
        return Some(ExtensionResponse(text := Some("Note saved: \"" + note + "\""), priority := 9));
      }
      if IsListQuery(query) {
        return Some(ExtensionResponse(text := Some("Your notes:\n" + NotesListing(notes)), priority := 9));
      }
      return None;
    }
  }

  /** The notes extension's AI hook while it holds `notes`; it never throws. */
  function NotesQueryHook(notes: seq<string>): (string, LauncherContext) -> Outcome<Option<ExtensionResponse>> {
    (query: string, context: LauncherContext) => NotesAnswer(notes, query)
  }

  /** What the notes hook gives from `notes`: the answer of `NotesReply`; it never throws. */
  function NotesAnswer(notes: seq<string>, query: string): Outcome<Option<ExtensionResponse>> {
    Ok(NotesReply(notes, query).0)
  }

  /** The notes extension, as a value, in the state where it holds `notes`. */
  function NotesAt(notes: seq<string>): LauncherExtension {
    LauncherExtension(
      id := "com.launcher.notes",
      name := "Quick Notes",
      version := "1.0.0",
      author := "AI Launcher Team",
      description := "Quick note-taking from the launcher",
      onAIQuery := NotesQueryHook(notes))
  }
}
