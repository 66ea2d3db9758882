/** Strings as the program's Python and shell read them, splitting, joining and decimal numbers, and what may be missing. */
module Text {

  datatype Option<+T> = None | Some(value: T)

  /** The first of `items` that is `wanted`, None when none is. */
  function First<T>(items: seq<T>, wanted: T -> bool): (found: Option<T>)
    ensures found.None? <==> forall i :: 0 <= i < |items| ==> !wanted(items[i])
    ensures found.Some? ==> exists i :: 0 <= i < |items| && found == Some(items[i]) && wanted(items[i])
                                        && forall j :: 0 <= j < i ==> !wanted(items[j])
  {
    if items == [] then None else if wanted(items[0]) then Some(items[0]) else First(items[1..], wanted)
  }

  predicate IsDigit(c: char) {
    '0' <= c <= '9'
  }

  /** `text.split(separator)`: never empty, and `[""]` for the empty text. */
  function Split(text: string, separator: char): (parts: seq<string>)
    ensures |parts| >= 1
  {
    if text == "" then [""]
    else
      var rest := Split(text[1..], separator);
      if text[0] == separator then [""] + rest
      else [[text[0]] + rest[0]] + rest[1..]
  }

  /** `separator.join(parts)`. */
  function Join(parts: seq<string>, separator: char): string {
    if parts == [] then ""
    else if |parts| == 1 then parts[0]
    else parts[0] + [separator] + Join(parts[1..], separator)
  }

  lemma {:induction false} SplitPlain(text: string, separator: char)
    requires separator !in text
    ensures Split(text, separator) == [text]
  {
    if text != "" {
      SplitPlain(text[1..], separator);
      assert [text[0]] + text[1..] == text;
    }
  }

  lemma {:induction false} SplitHead(head: string, rest: string, separator: char)
    requires separator !in head
    ensures Split(head + [separator] + rest, separator) == [head] + Split(rest, separator)
  {
    var text := head + [separator] + rest;
    if head == "" {
      assert text[1..] == rest;
    } else {
      assert text[1..] == head[1..] + [separator] + rest;
      SplitHead(head[1..], rest, separator);
      assert [text[0]] + head[1..] == head;
    }
  }

  /** Splitting undoes joining, for parts that hold no separator. */
  lemma {:induction false} SplitJoin(parts: seq<string>, separator: char)
    requires parts != []
    requires forall part :: part in parts ==> separator !in part
    ensures Split(Join(parts, separator), separator) == parts
  {
    if |parts| == 1 {
      SplitPlain(parts[0], separator);
    } else {
      SplitHead(parts[0], Join(parts[1..], separator), separator);
      SplitJoin(parts[1..], separator);
    }
  }

  /** Joining undoes splitting. */
  lemma {:induction false} JoinSplit(text: string, separator: char)
    ensures Join(Split(text, separator), separator) == text
  {
    if text != "" {
      var rest := Split(text[1..], separator);
      JoinSplit(text[1..], separator);
      if text[0] == separator {
        assert ([""] + rest)[1..] == rest;
        assert "" + [separator] + text[1..] == text;
      } else {
        var parts := [[text[0]] + rest[0]] + rest[1..];
        if |rest| == 1 {
          assert parts == [[text[0]] + rest[0]];
        } else {
          assert parts[1..] == rest[1..];
          assert [text[0]] + rest[0] + [separator] + Join(rest[1..], separator) == [text[0]] + (rest[0] + [separator] + Join(rest[1..], separator));
        }
        assert [text[0]] + text[1..] == text;
      }
    }
  }

  lemma SplitNext(text: string, separator: char)
    requires text != ""
    ensures Split(text, separator)
         == if text[0] == separator then [""] + Split(text[1..], separator)
            else [[text[0]] + Split(text[1..], separator)[0]] + Split(text[1..], separator)[1..]
  {
  }

  lemma SplitEmpty(separator: char)
    ensures Split("", separator) == [""]
  {
  }

  /** A separator in the text splits there, whatever stands on its two sides. */
  lemma {:induction false} SplitAt(head: string, rest: string, separator: char)
    ensures Split(head + [separator] + rest, separator) == Split(head, separator) + Split(rest, separator)
  {
    hide Split;
    var text := head + [separator] + rest;
    SplitNext(text, separator);
    if head == "" {
      SplitEmpty(separator);
      assert text[1..] == rest;
    } else {
      SplitNext(head, separator);
      SplitAt(head[1..], rest, separator);
      assert text[1..] == head[1..] + [separator] + rest;
      AppendAfterFirst(head[0], Split(head[1..], separator), Split(rest, separator));
    }
  }

  lemma AppendAfterFirst(c: char, one: seq<string>, two: seq<string>)
    requires one != []
    ensures [[c] + (one + two)[0]] + (one + two)[1..] == [[c] + one[0]] + one[1..] + two
    ensures [""] + (one + two) == [""] + one + two
  {
  }

  lemma {:induction false} JoinAt(one: seq<string>, two: seq<string>, separator: char)
    requires one != [] && two != []
    ensures Join(one + two, separator) == Join(one, separator) + [separator] + Join(two, separator)
  {
    if |one| == 1 {
      assert (one + two)[1..] == two && (one + two)[0] == one[0];
    } else {
      assert (one + two)[1..] == one[1..] + two && (one + two)[0] == one[0];
      JoinAt(one[1..], two, separator);
    }
  }

  /** No part of a split holds the separator. */
  lemma {:induction false} SplitHoldsNone(text: string, separator: char)
    ensures forall part :: part in Split(text, separator) ==> separator !in part
  {
    if text != "" {
      SplitHoldsNone(text[1..], separator);
      var rest := Split(text[1..], separator);
      assert rest[0] in rest;
      forall part | part in Split(text, separator) ensures separator !in part {
        assert part in rest || part == "" || part == [text[0]] + rest[0];
      }
    }
  }

  function Digit(n: nat): (c: char)
    requires n < 10
    ensures IsDigit(c)
  {
    '0' + n as char
  }

  /** A number in decimal, with no leading zero. */
  function Decimal(n: nat): (text: string)
    ensures text != "" && forall c :: c in text ==> IsDigit(c)
  {
    if n < 10 then [Digit(n)] else Decimal(n / 10) + [Digit(n % 10)]
  }

  /** `%02d`: at least two digits. */
  function TwoDigits(n: nat): (text: string)
    ensures |text| >= 2 && forall c :: c in text ==> IsDigit(c)
  {
    if n < 10 then "0" + Decimal(n) else Decimal(n)
  }

  /** `int(text)` of a plain run of digits, None for anything else. */
  function ParseNat(text: string): Option<nat> {
    if text == "" || exists c :: c in text && !IsDigit(c) then None else Some(Value(text))
  }

  function Value(text: string): nat
    requires forall c :: c in text ==> IsDigit(c)
  {
    if text == "" then 0
    else
      var last := text[|text| - 1];
      assert last in text && IsDigit(last);
      Value(text[..|text| - 1]) * 10 + (last as int - '0' as int)
  }

  lemma {:induction false} ValueDecimal(n: nat)
    ensures Value(Decimal(n)) == n
  {
    if n >= 10 {
      ValueDecimal(n / 10);
      assert Decimal(n)[..|Decimal(n)| - 1] == Decimal(n / 10);
    } else {
      assert Decimal(n)[..0] == "";
    }
  }

  /** Reading back a number printed with at least two digits gives the number. */
  lemma {:induction false} ParseTwoDigits(n: nat)
    ensures ParseNat(TwoDigits(n)) == Some(n)
  {
    ValueDecimal(n);
    if n < 10 {
      var text := TwoDigits(n);
      assert text[..1] == "0" && Value("0") == 0 by { assert "0"[..0] == ""; }
      assert text[1] == Digit(n);
    }
  }
}
