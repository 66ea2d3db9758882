/** Where a command line's implied `--` goes: between what a verb reads itself and the command it passes on. */
module CommandDelimiter {
  import opened Text

  const DELIMITER := "--"
  const SEPARATOR := "::"

  /** What a verb reads ahead of its command: its options' value counts, and how many positionals come first. */
  datatype Tail = Tail(widths: map<string, nat>, leading: nat)

  predicate IsOption(word: string) {
    |word| > 0 && word[0] == '-' && word != "-"
  }

  /** The text before the first `=`, all of it when there is none. */
  function OptionName(word: string): string {
    if word == "" then "" else if word[0] == '=' then "" else [word[0]] + OptionName(word[1..])
  }

  /** The text before the first `::`, all of it when there is none. */
  function BeforeSeparator(word: string): string {
    if |word| < 2 then word
    else if word[..2] == SEPARATOR then "" else [word[0]] + BeforeSeparator(word[1..])
  }

  predicate EndsWithPy(word: string) {
    |word| >= 3 && word[|word| - 3..] == ".py"
  }

  /** How far an option reaches: itself and its declared number of values, itself alone with an inline one. */
  function Skipped(option: string, widths: map<string, nat>): (width: Option<nat>)
    ensures width.Some? ==> width.value >= 1
  {
    var name := OptionName(option);
    if name !in widths then None else Some(if '=' in option then 1 else 1 + widths[name])
  }

  /** Where the first `--` of a command stands. */
  function DelimiterAt(command: seq<string>): (at: nat)
    requires DELIMITER in command
    ensures at < |command| && command[at] == DELIMITER && DELIMITER !in command[..at]
  {
    if command[0] == DELIMITER then 0
    else
      var rest := DelimiterAt(command[1..]);
      assert command[..rest + 1] == [command[0]] + command[1..][..rest];
      1 + rest
  }

  /** The line needs no `--` put in: a target in a `.py` file, then an option at least, every option declared, then a `--`. */
  predicate DelimitsItself(command: seq<string>, widths: map<string, nat>)
    requires command != []
  {
    && DELIMITER in command && EndsWithPy(BeforeSeparator(command[0]))
    && var own := command[..DelimiterAt(command)];
       && (exists i :: 0 <= i < |own| && IsOption(own[i]))
       && forall i :: 0 <= i < |own| && IsOption(own[i]) ==> OptionName(own[i]) in widths
  }

  /** Where the command starts, reading from `position` with `leading` positionals to come; None when it delimits itself, names none, or meets an undeclared option. */
  function CommandFrom(rest: seq<string>, tail: Tail, position: nat, leading: nat): Option<nat>
    decreases if position < |rest| then |rest| - position else 0
  {
    if position >= |rest| || rest[position] == DELIMITER then None
    else
      var token := rest[position];
      if IsOption(token) then
        (match Skipped(token, tail.widths)
         case None => None
         case Some(width) => CommandFrom(rest, tail, position + width, leading))
      else if leading == 0 then (if DelimitsItself(rest[position..], tail.widths) then None else Some(position))
      else CommandFrom(rest, tail, position + 1, leading - 1)
  }

  // ---- The words of a line ----

  /** An option is a dash and something after it. */
  lemma OptionExactly(word: string)
    ensures IsOption(word) <==> |word| >= 2 && word[0] == '-'
  {
    if |word| == 1 && word[0] == '-' {
      assert word == "-";
    }
  }

  /** An option's name ends at its first `=`, or with the word. */
  lemma {:induction false} NameEndsAtEquals(word: string)
    ensures '=' !in OptionName(word)
    ensures '=' !in word ==> OptionName(word) == word
    ensures '=' in word ==> exists value :: word == OptionName(word) + "=" + value
  {
    if word != "" && word[0] != '=' {
      NameEndsAtEquals(word[1..]);
      assert word == [word[0]] + word[1..];
      if '=' in word {
        var value :| word[1..] == OptionName(word[1..]) + "=" + value;
        assert word == OptionName(word) + "=" + value;
      }
    } else if word != "" {
      assert word == "" + "=" + word[1..];
    }
  }

  /** `::` stands at position `i`. */
  predicate SeparatorAt(word: string, i: nat) {
    i + 2 <= |word| && word[i] == ':' && word[i + 1] == ':'
  }

  lemma ShiftedSeparator(word: string, i: nat)
    requires |word| >= 1
    ensures SeparatorAt(word[1..], i) <==> SeparatorAt(word, i + 1)
    ensures |word| >= 2 ==> (word[..2] == SEPARATOR <==> SeparatorAt(word, 0))
  {
  }

  /** A target's file ends at its first `::`. */
  lemma {:induction false} FileEndsAtSeparator(word: string, i: nat)
    requires SeparatorAt(word, i) && forall j: nat :: j < i ==> !SeparatorAt(word, j)
    ensures BeforeSeparator(word) == word[..i]
  {
    ShiftedSeparator(word, 0);
    if i > 0 {
      forall j: nat | j < i - 1 ensures !SeparatorAt(word[1..], j) {
        ShiftedSeparator(word, j);
      }
      ShiftedSeparator(word, i - 1);
      FileEndsAtSeparator(word[1..], i - 1);
      assert !SeparatorAt(word, 0);
      assert word[..i] == [word[0]] + word[1..][..i - 1];
    }
  }

  /** Without one it is the whole word. */
  lemma {:induction false} FileIsTheWord(word: string)
    requires forall j: nat :: !SeparatorAt(word, j)
    ensures BeforeSeparator(word) == word
  {
    if |word| >= 2 {
      forall j: nat ensures !SeparatorAt(word[1..], j) {
        ShiftedSeparator(word, j);
      }
      ShiftedSeparator(word, 0);
      assert !SeparatorAt(word, 0);
      FileIsTheWord(word[1..]);
      assert word == [word[0]] + word[1..];
    }
  }

  /** How far an option reaches: one word with its value inline, else one and the values it is declared with; nowhere undeclared. */
  lemma SkippedExactly(option: string, widths: map<string, nat>)
    ensures Skipped(option, widths).None? <==> OptionName(option) !in widths
    ensures OptionName(option) in widths ==> Skipped(option, widths) == Some(if '=' in option then 1 else widths[OptionName(option)] + 1)
  {
  }

  /** A line delimits itself exactly when its target is a `.py` file and up to its first `--` stand an option at least, and declared ones only. */
  lemma DelimitsItselfExactly(command: seq<string>, widths: map<string, nat>)
    requires command != []
    ensures DelimitsItself(command, widths) <==>
              exists d :: 0 <= d < |command| && command[d] == "--" && (forall i :: 0 <= i < d ==> command[i] != "--")
                          && (exists stem :: BeforeSeparator(command[0]) == stem + ".py")
                          && (exists i :: 0 <= i < d && IsOption(command[i]))
                          && (forall i :: 0 <= i < d && IsOption(command[i]) ==> OptionName(command[i]) in widths)
  {
    hide OptionName, IsOption, BeforeSeparator;
    PyExactly(BeforeSeparator(command[0]));
    if DELIMITER in command {
      var d := DelimiterAt(command);
      assert forall i :: 0 <= i < d ==> command[..d][i] == command[i];
      forall i | 0 <= i < d ensures command[i] != "--" {
        assert command[i] in command[..d];
      }
    }
  }

  lemma PyExactly(word: string)
    ensures EndsWithPy(word) <==> exists stem :: word == stem + ".py"
  {
    if EndsWithPy(word) {
      assert word == word[..|word| - 3] + ".py";
    }
  }

  /** `_command_at`: a scan that advances a position and counts down the leading positionals. */
  method CommandAt(rest: seq<string>, tail: Tail) returns (start: Option<nat>)
    ensures start == CommandFrom(rest, tail, 0, tail.leading)
  {
    var position, leading := 0, tail.leading;
    while position < |rest| && rest[position] != DELIMITER
      invariant CommandFrom(rest, tail, 0, tail.leading) == CommandFrom(rest, tail, position, leading)
      decreases |rest| - position
    {
      var token := rest[position];
      var option := IsOption(token);
      if !option && leading == 0 {
        return if DelimitsItself(rest[position..], tail.widths) then None else Some(position);
      }
      var width := if option then Skipped(token, tail.widths) else Some(1);
      if width.None? {
        return None;
      }
      leading := leading - if option then 0 else 1;
      position := position + width.value;
    }
    return None;
  }

  /** `_delimited`: the tokens split where the command starts and joined by the delimiter. */
  function Delimited(rest: seq<string>, tail: Tail): seq<string>
  {
    match CommandFrom(rest, tail, 0, tail.leading)
    case None => rest
    case Some(start) => (assert start <= |rest| by { StartsInside(rest, tail, 0, tail.leading); }
                         rest[..start] + [DELIMITER] + rest[start..])
  }

  lemma {:induction false} StartsInside(rest: seq<string>, tail: Tail, position: nat, leading: nat)
    ensures var start := CommandFrom(rest, tail, position, leading);
            start.Some? ==> position <= start.value < |rest|
    decreases if position < |rest| then |rest| - position else 0
  {
    if position < |rest| && rest[position] != DELIMITER {
      var token := rest[position];
      if IsOption(token) {
        var width := Skipped(token, tail.widths);
        if width.Some? {
          StartsInside(rest, tail, position + width.value, leading);
        }
      } else if leading > 0 {
        StartsInside(rest, tail, position + 1, leading - 1);
      }
    }
  }

  // ---- What stands before the command, as a grammar ----

  /** One thing a verb reads for itself: an option with the values it takes, or a leading positional. */
  datatype Item = Declared(word: string, values: seq<string>) | Leading(word: string) {
    function Tokens(): seq<string> {
      if Declared? then [word] + values else [word]
    }

    /** A declared option other than the delimiter with all its values, none when one is written inline; or a word that is no option. */
    predicate Reads(widths: map<string, nat>) {
      if Leading? then !IsOption(word)
      else
        && IsOption(word) && word != DELIMITER && OptionName(word) in widths
        && |values| == if '=' in word then 0 else widths[OptionName(word)]
    }
  }

  function Flat(items: seq<Item>): seq<string> {
    if items == [] then [] else items[0].Tokens() + Flat(items[1..])
  }

  function Positionals(items: seq<Item>): nat {
    if items == [] then 0 else (if items[0].Leading? then 1 else 0) + Positionals(items[1..])
  }

  ghost predicate AllRead(items: seq<Item>, widths: map<string, nat>) {
    forall i :: 0 <= i < |items| ==> items[i].Reads(widths)
  }

  /** `rest` continues at `position` with what `items` spell. */
  ghost predicate StandsAt(items: seq<Item>, rest: seq<string>, position: nat) {
    position + |Flat(items)| <= |rest| && rest[position..position + |Flat(items)|] == Flat(items)
  }

  lemma ScansItem(rest: seq<string>, tail: Tail, position: nat, leading: nat, item: Item)
    requires item.Reads(tail.widths) && position < |rest| && rest[position] == item.word
    requires item.Leading? ==> leading > 0
    ensures CommandFrom(rest, tail, position, leading)
         == CommandFrom(rest, tail, position + |item.Tokens()|, if item.Leading? then leading - 1 else leading)
  {
  }

  lemma StandsItem(items: seq<Item>, rest: seq<string>, position: nat)
    requires items != [] && StandsAt(items, rest, position)
    ensures position < |rest| && rest[position] == items[0].word
    ensures StandsAt(items[1..], rest, position + |items[0].Tokens()|)
  {
    var flat, next := Flat(items), position + |items[0].Tokens()|;
    assert rest[position] == rest[position..position + |flat|][0];
    assert Flat(items[1..]) == flat[|items[0].Tokens()|..];
    assert rest[next..position + |flat|] == rest[position..position + |flat|][|items[0].Tokens()|..];
  }

  /** The scan goes past any items the grammar reads, counting down their positionals. */
  lemma {:induction false} ScansPast(rest: seq<string>, tail: Tail, position: nat, leading: nat, items: seq<Item>)
    requires AllRead(items, tail.widths) && StandsAt(items, rest, position) && Positionals(items) <= leading
    ensures CommandFrom(rest, tail, position, leading)
         == CommandFrom(rest, tail, position + |Flat(items)|, leading - Positionals(items))
    decreases |items|
  {
    hide CommandFrom, StandsAt;
    if items != [] {
      var item := items[0];
      StandsItem(items, rest, position);
      assert item.Reads(tail.widths);
      ScansItem(rest, tail, position, leading, item);
      ScansPast(rest, tail, position + |item.Tokens()|, if item.Leading? then leading - 1 else leading, items[1..]);
    }
  }

  /** A declared option read with the values it takes. */
  lemma DeclaredReads(rest: seq<string>, widths: map<string, nat>, position: nat)
    requires position < |rest| && IsOption(rest[position]) && rest[position] != DELIMITER && Skipped(rest[position], widths).Some?
    requires position + Skipped(rest[position], widths).value <= |rest|
    ensures var width := Skipped(rest[position], widths).value;
            var item := Declared(rest[position], rest[position + 1..position + width]);
               item.Reads(widths) && item.Tokens() == rest[position..position + width]
  {
  }

  lemma NothingRead(widths: map<string, nat>)
    ensures AllRead([], widths) && Flat([]) == [] && Positionals([]) == 0
  {
  }

  /** One more item read in front of others. */
  lemma ReadsOneMore(item: Item, after: seq<Item>, widths: map<string, nat>, rest: seq<string>, position: nat, start: nat)
    requires item.Reads(widths) && AllRead(after, widths) && position + |item.Tokens()| <= start <= |rest|
    requires item.Tokens() == rest[position..position + |item.Tokens()|] && Flat(after) == rest[position + |item.Tokens()|..start]
    ensures AllRead([item] + after, widths) && Flat([item] + after) == rest[position..start]
    ensures Positionals([item] + after) == (if item.Leading? then 1 else 0) + Positionals(after)
  {
    assert ([item] + after)[1..] == after;
    assert rest[position..start] == rest[position..position + |item.Tokens()|] + rest[position + |item.Tokens()|..start];
  }

  /** Before the command it finds, the scan read exactly declared options with their values and the leading positionals. */
  lemma {:induction false} ReadsBefore(rest: seq<string>, tail: Tail, position: nat, leading: nat) returns (items: seq<Item>)
    requires CommandFrom(rest, tail, position, leading).Some?
    ensures var start := CommandFrom(rest, tail, position, leading).value;
            && AllRead(items, tail.widths) && Positionals(items) == leading
            && position <= start < |rest| && Flat(items) == rest[position..start]
            && !IsOption(rest[start]) && !DelimitsItself(rest[start..], tail.widths)
    decreases if position < |rest| then |rest| - position else 0
  {
    hide IsOption, DelimitsItself, OptionName, AllRead, Skipped, Flat, Positionals;
    StartsInside(rest, tail, position, leading);
    var start, token := CommandFrom(rest, tail, position, leading).value, rest[position];
    if IsOption(token) {
      var width := Skipped(token, tail.widths).value;
      StartsInside(rest, tail, position + width, leading);
      var item := Declared(token, rest[position + 1..position + width]);
      DeclaredReads(rest, tail.widths, position);
      var after := ReadsBefore(rest, tail, position + width, leading);
      items := [item] + after;
      ReadsOneMore(item, after, tail.widths, rest, position, start);
    } else if leading == 0 {
      items := [];
      NothingRead(tail.widths);
    } else {
      var item := Leading(token);
      assert item.Tokens() == rest[position..position + 1];
      var after := ReadsBefore(rest, tail, position + 1, leading - 1);
      items := [item] + after;
      ReadsOneMore(item, after, tail.widths, rest, position, start);
    }
  }

  /** The command may start at `start`: a word that is no option and does not delimit itself, after what the verb reads for itself. */
  ghost predicate StartsAt(rest: seq<string>, tail: Tail, start: nat) {
    && start < |rest| && !IsOption(rest[start]) && !DelimitsItself(rest[start..], tail.widths)
    && exists items :: AllRead(items, tail.widths) && Positionals(items) == tail.leading && Flat(items) == rest[..start]
  }

  /** The delimiter goes exactly in front of the one command the grammar gives, and nowhere when it gives none. */
  lemma PlacedExactlyAtTheCommand(rest: seq<string>, tail: Tail, start: nat)
    ensures CommandFrom(rest, tail, 0, tail.leading) == Some(start) <==> StartsAt(rest, tail, start)
  {
    hide CommandFrom, DelimitsItself, IsOption, AllRead, Flat, Positionals;
    if CommandFrom(rest, tail, 0, tail.leading) == Some(start) {
      var items := ReadsBefore(rest, tail, 0, tail.leading);
      assert rest[0..start] == rest[..start];
    }
    if StartsAt(rest, tail, start) {
      var items :| AllRead(items, tail.widths) && Positionals(items) == tail.leading && Flat(items) == rest[..start];
      assert rest[0..0 + |Flat(items)|] == Flat(items);
      ScansPast(rest, tail, 0, tail.leading, items);
      assert 0 + |Flat(items)| == start;
      CommandHere(rest, tail, start);
    }
  }

  lemma CommandHere(rest: seq<string>, tail: Tail, start: nat)
    requires start < |rest| && !IsOption(rest[start]) && !DelimitsItself(rest[start..], tail.widths)
    ensures CommandFrom(rest, tail, start, 0) == Some(start)
  {
  }

  /** An undeclared option met before the command leaves the line as it was. */
  lemma UndeclaredOptionLeavesTheLine(rest: seq<string>, tail: Tail, items: seq<Item>, at: nat)
    requires AllRead(items, tail.widths) && Positionals(items) <= tail.leading
    requires at < |rest| && Flat(items) == rest[..at]
    requires IsOption(rest[at]) && OptionName(rest[at]) !in tail.widths
    ensures Delimited(rest, tail) == rest
  {
    assert rest[0..0 + |Flat(items)|] == Flat(items);
    ScansPast(rest, tail, 0, tail.leading, items);
  }

  /** At most one `--` is added, in front of a command left verbatim, and adding it again changes nothing. */
  lemma PlacedOnce(rest: seq<string>, tail: Tail)
    ensures Delimited(Delimited(rest, tail), tail) == Delimited(rest, tail)
    ensures Delimited(rest, tail) == rest
            || exists start: nat :: StartsAt(rest, tail, start) && Delimited(rest, tail) == rest[..start] + [DELIMITER] + rest[start..]
  {
    var found := CommandFrom(rest, tail, 0, tail.leading);
    if found.Some? {
      var start, placed := found.value, Delimited(rest, tail);
      PlacedExactlyAtTheCommand(rest, tail, start);
      var items := ReadsBefore(rest, tail, 0, tail.leading);
      assert placed[0..0 + |Flat(items)|] == Flat(items);
      ScansPast(placed, tail, 0, tail.leading, items);
      assert placed[start] == DELIMITER;
    }
  }

  // ---- The whole line ----

  /** A command of the tool: what it reads ahead of a trailing command, if it takes one, and its own commands. */
  datatype Verb = Verb(tail: Option<Tail>, commands: map<string, Verb>)

  /** The verb the tokens name, and how many of them name it. */
  function Parsed(verb: Verb, tokens: seq<string>): (Verb, nat)
    decreases |tokens|
  {
    if tokens == [] || tokens[0] !in verb.commands then (verb, 0)
    else
      var (inner, words) := Parsed(verb.commands[tokens[0]], tokens[1..]);
      (inner, words + 1)
  }

  lemma {:induction false} ParsedInside(verb: Verb, tokens: seq<string>)
    ensures Parsed(verb, tokens).1 <= |tokens|
    decreases |tokens|
  {
    if tokens != [] && tokens[0] in verb.commands {
      ParsedInside(verb.commands[tokens[0]], tokens[1..]);
    }
  }

  /** `placed`: anything but a trailing-command verb comes back unchanged. */
  function Placed(app: Verb, tokens: seq<string>): seq<string> {
    var (verb, words) := Parsed(app, tokens);
    ParsedInside(app, tokens);
    if verb.tail.None? then tokens else tokens[..words] + Delimited(tokens[words..], verb.tail.value)
  }

  /** The verb read is the same whatever follows it, as long as what follows names none of its commands. */
  lemma {:induction false} ParsedAgain(app: Verb, tokens: seq<string>, after: seq<string>)
    requires var (verb, words) := Parsed(app, tokens);
             words <= |tokens| && (after == [] || after[0] !in verb.commands)
    ensures Parsed(app, tokens[..Parsed(app, tokens).1] + after) == Parsed(app, tokens)
    decreases |tokens|
  {
    var words := Parsed(app, tokens).1;
    if words == 0 {
      assert tokens[..0] + after == after;
    } else {
      var line := tokens[..words] + after;
      assert line[0] == tokens[0] && line[1..] == tokens[1..][..words - 1] + after;
      ParsedAgain(app.commands[tokens[0]], tokens[1..], after);
    }
  }

  lemma ParsedStops(app: Verb, tokens: seq<string>)
    ensures var (verb, words) := Parsed(app, tokens);
            words <= |tokens| && (words < |tokens| ==> tokens[words] !in verb.commands)
    decreases |tokens|
  {
    if tokens != [] && tokens[0] in app.commands {
      ParsedStops(app.commands[tokens[0]], tokens[1..]);
    }
  }

  /** Placing the delimiter in a whole line twice is placing it once, when no command is named `--`. */
  lemma LinePlacedOnce(app: Verb, tokens: seq<string>)
    requires DELIMITER !in Parsed(app, tokens).0.commands
    ensures Placed(app, Placed(app, tokens)) == Placed(app, tokens)
  {
    var (verb, words) := Parsed(app, tokens);
    ParsedStops(app, tokens);
    if verb.tail.Some? {
      var rest := tokens[words..];
      var after := Delimited(rest, verb.tail.value);
      PlacedOnce(rest, verb.tail.value);
      assert after == [] || after[0] == DELIMITER || (rest != [] && after[0] == rest[0]);
      ParsedAgain(app, tokens, after);
      var line := Placed(app, tokens);
      assert line == tokens[..words] + after && line[..words] == tokens[..words] && line[words..] == after;
    }
  }

  /** Words that name a verb one after another, and what the verb is. */
  ghost predicate NamesVerb(app: Verb, words: seq<string>, verb: Verb)
    decreases |words|
  {
    if words == [] then verb == app else words[0] in app.commands && NamesVerb(app.commands[words[0]], words[1..], verb)
  }

  lemma {:induction false} ParsedExactly(app: Verb, words: seq<string>, rest: seq<string>, verb: Verb)
    requires NamesVerb(app, words, verb) && (rest != [] ==> rest[0] !in verb.commands)
    ensures Parsed(app, words + rest) == (verb, |words|)
    decreases |words|
  {
    if words == [] {
      assert words + rest == rest;
    } else {
      assert (words + rest)[0] == words[0] && (words + rest)[1..] == words[1..] + rest;
      ParsedExactly(app.commands[words[0]], words[1..], rest, verb);
    }
  }

  /** A whole line: the words that name the verb stay, and what follows them is delimited exactly when the verb takes a command. */
  lemma LinePlacedExactly(app: Verb, words: seq<string>, rest: seq<string>, verb: Verb)
    requires NamesVerb(app, words, verb) && (rest != [] ==> rest[0] !in verb.commands)
    ensures Placed(app, words + rest) == words + if verb.tail.Some? then Delimited(rest, verb.tail.value) else rest
  {
    ParsedExactly(app, words, rest, verb);
    assert (words + rest)[..|words|] == words && (words + rest)[|words|..] == rest;
  }

  /** The delimiter is put in front of the command, when there is one. */
  lemma DelimitedExactly(rest: seq<string>, tail: Tail)
    ensures (forall start: nat :: !StartsAt(rest, tail, start)) ==> Delimited(rest, tail) == rest
    ensures forall start: nat :: StartsAt(rest, tail, start) ==> Delimited(rest, tail) == rest[..start] + ["--"] + rest[start..]
  {
    hide CommandFrom, StartsAt;
    forall start: nat ensures CommandFrom(rest, tail, 0, tail.leading) == Some(start) <==> StartsAt(rest, tail, start) {
      PlacedExactlyAtTheCommand(rest, tail, start);
    }
  }
}
