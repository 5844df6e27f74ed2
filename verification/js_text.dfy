/** The few JavaScript string built-ins the application relies on, over
    strings of Unicode scalar values: `String.prototype.trim`,
    `Array.prototype.join`, `String.prototype.split` with a one-character
    separator, `startsWith`, and `length`, which JavaScript counts in UTF-16
    code units. */
module JsText {

  /** The characters `trim` removes: ECMAScript's WhiteSpace (tab, vertical
      tab, form feed, space, no-break space, byte-order mark and the
      space-separator category) and LineTerminator (line feed, carriage
      return, line and paragraph separator). */
  predicate IsJsWhitespace(c: char) {
    || c == '\t' || c == '\n' || c == '\U{000B}' || c == '\U{000C}' || c == '\r'
    || c == ' ' || c == '\U{00A0}' || c == '\U{1680}'
    || ('\U{2000}' <= c <= '\U{200A}')
    || c == '\U{2028}' || c == '\U{2029}' || c == '\U{202F}' || c == '\U{205F}'
    || c == '\U{3000}' || c == '\U{FEFF}'
  }

  /** Every character of `s` is white space (vacuously so for ""). */
  predicate AllWhitespace(s: string) {
    forall i :: 0 <= i < |s| ==> IsJsWhitespace(s[i])
  }

  /** `s` with its leading white space removed. */
  function TrimStart(s: string): (r: string)
    ensures |r| <= |s| && r == s[|s| - |r|..]
    ensures forall i :: 0 <= i < |s| - |r| ==> IsJsWhitespace(s[i])
    ensures r == [] || !IsJsWhitespace(r[0])
  {
    if |s| > 0 && IsJsWhitespace(s[0]) then TrimStart(s[1..]) else s
  }

  /** `s` with its trailing white space removed. */
  function TrimEnd(s: string): (r: string)
    ensures |r| <= |s| && r == s[..|r|]
    ensures forall i :: |r| <= i < |s| ==> IsJsWhitespace(s[i])
    ensures r == [] || !IsJsWhitespace(r[|r| - 1])
  {
    if |s| > 0 && IsJsWhitespace(s[|s| - 1]) then TrimEnd(s[..|s| - 1]) else s
  }

  /** `s.trim()`: TrimStart then TrimEnd, each of which cuts only white
      space from its own end. The result is empty exactly when `s` is all
      white space, and otherwise neither starts nor ends with white space. */
  function Trim(s: string): (r: string)
    ensures r == [] <==> AllWhitespace(s)
    ensures r == [] || (!IsJsWhitespace(r[0]) && !IsJsWhitespace(r[|r| - 1]))
    ensures |r| <= |s|
  {
    var t := TrimStart(s);
    var r := TrimEnd(t);
    assert r == [] ==> AllWhitespace(s) by {
      if r == [] {
        assert t == [];
      }
    }
    r
  }

  /** Sum of the lengths of `items`. */
  function TotalLength(items: seq<string>): nat {
    if |items| == 0 then 0 else |items[0]| + TotalLength(items[1..])
  }

  /** `items.join(sep)`: the items in order with one `sep` between
      neighbours. */
  function Join(items: seq<string>, sep: char): (r: string)
    ensures |items| == 0 ==> r == []
    ensures |items| > 0 ==> |r| == TotalLength(items) + |items| - 1
    ensures |items| > 0 ==> items[0] <= r
  {
    if |items| == 0 then []
    else if |items| == 1 then items[0]
    else items[0] + [sep] + Join(items[1..], sep)
  }

  /** `s.split(sep)`: the pieces between separators, in order, with an
      empty piece wherever two separators are adjacent or `s` starts or ends
      with one; always at least one piece, and "" splits into [""]. */
  function Split(s: string, sep: char): (r: seq<string>)
    ensures |r| >= 1
    ensures forall i :: 0 <= i < |r| ==> sep !in r[i]
  {
    if |s| == 0 then [[]]
    else
      var rest := Split(s[1..], sep);
      if s[0] == sep then [[]] + rest
      else [[s[0]] + rest[0]] + rest[1..]
  }

  /** Joining with an empty first item starts with the separator. */
  lemma JoinEmptyHead(rest: seq<string>, sep: char)
    requires |rest| > 0
    ensures Join([[]] + rest, sep) == [sep] + Join(rest, sep)
  {
    assert ([[]] + rest)[1..] == rest;
  }

  /** Gluing `x` onto the first item glues it onto the front of the join. */
  lemma {:induction false} JoinGlueHead(x: string, rest: seq<string>, sep: char)
    requires |rest| > 0
    ensures Join([x + rest[0]] + rest[1..], sep) == x + Join(rest, sep)
  {
    var pieces := [x + rest[0]] + rest[1..];
    if |rest| == 1 {
      assert pieces == [x + rest[0]];
    } else {
      assert pieces[1..] == rest[1..];
      assert Join(rest, sep) == rest[0] + [sep] + Join(rest[1..], sep);
      assert Join(pieces, sep) == (x + rest[0]) + [sep] + Join(rest[1..], sep);
    }
  }

  /** Joining the pieces of a split restores the string. */
  lemma {:induction false} JoinSplit(s: string, sep: char)
    ensures Join(Split(s, sep), sep) == s
  {
    if |s| > 0 {
      var rest := Split(s[1..], sep);
      JoinSplit(s[1..], sep);
      assert s == [s[0]] + s[1..];
      if s[0] == sep {
        JoinEmptyHead(rest, sep);
      } else {
        JoinGlueHead([s[0]], rest, sep);
      }
    }
  }

  /** Joining two non-empty lists puts exactly one separator between the
      last item of the first and the first item of the second. */
  lemma {:induction false} JoinAppend(a: seq<string>, b: seq<string>, sep: char)
    requires |a| > 0 && |b| > 0
    ensures Join(a + b, sep) == Join(a, sep) + [sep] + Join(b, sep)
    decreases |a|
  {
    var ab := a + b;
    assert ab[0] == a[0];
    if |a| == 1 {
      assert ab[1..] == b;
      assert Join(ab, sep) == a[0] + [sep] + Join(b, sep);
    } else {
      assert ab[1..] == a[1..] + b;
      JoinAppend(a[1..], b, sep);
      assert Join(ab, sep) == a[0] + [sep] + (Join(a[1..], sep) + [sep] + Join(b, sep));
      assert Join(a, sep) == a[0] + [sep] + Join(a[1..], sep);
    }
  }

  /** Splitting `x + t`, where `x` holds no separator, glues `x` onto the
      first piece of `t`'s split. */
  lemma {:induction false} SplitPrefix(x: string, t: string, sep: char)
    requires sep !in x
    ensures Split(x + t, sep) == [x + Split(t, sep)[0]] + Split(t, sep)[1..]
  {
    if |x| > 0 {
      var r := Split(t, sep);
      SplitPrefix(x[1..], t, sep);
      assert (x + t)[1..] == x[1..] + t;
      var rest := Split(x[1..] + t, sep);
      assert rest == [x[1..] + r[0]] + r[1..];
      assert (x + t)[0] == x[0] && x[0] != sep;
      assert Split(x + t, sep) == [[x[0]] + rest[0]] + rest[1..];
      assert [x[0]] + (x[1..] + r[0]) == x + r[0];
    } else {
      var r := Split(t, sep);
      assert x + t == t;
      assert x + r[0] == r[0];
      assert r == [r[0]] + r[1..];
    }
  }

  /** Splitting a join restores the items, as long as there is at least
      one item and none of them contains the separator. */
  lemma {:induction false} SplitJoin(items: seq<string>, sep: char)
    requires |items| > 0
    requires forall i :: 0 <= i < |items| ==> sep !in items[i]
    ensures Split(Join(items, sep), sep) == items
  {
    if |items| == 1 {
      SplitPrefix(items[0], [], sep);
      assert items[0] + [] == items[0];
    } else {
      var tail := Join(items[1..], sep);
      SplitJoin(items[1..], sep);
      assert Join(items, sep) == items[0] + ([sep] + tail);
      SplitPrefix(items[0], [sep] + tail, sep);
      assert ([sep] + tail)[1..] == tail;
      assert Split([sep] + tail, sep) == [[]] + items[1..];
      assert items[0] + [] == items[0];
    }
  }

  /** `s.startsWith(prefix)`. */
  predicate StartsWith(s: string, prefix: string) {
    prefix <= s
  }

  /** `s.length`: characters outside the Basic Multilingual Plane are
      stored as surrogate pairs and count twice. */
  function Utf16Length(s: string): (n: nat)
    ensures |s| <= n <= 2 * |s|
    ensures (forall i :: 0 <= i < |s| ==> (s[i] as int) < 0x1_0000) ==> n == |s|
    ensures |s| == 1 ==> n == (if (s[0] as int) < 0x1_0000 then 1 else 2)
  {
    if |s| == 0 then 0
    else (if (s[0] as int) < 0x1_0000 then 1 else 2) + Utf16Length(s[1..])
  }

  /** Code units add up over concatenation, so with the one-character
      clause above every string's length is the sum over its characters:
      one unit inside the Basic Multilingual Plane, two outside it. */
  lemma {:induction false} Utf16LengthAppend(s: string, t: string)
    ensures Utf16Length(s + t) == Utf16Length(s) + Utf16Length(t)
    decreases |s|
  {
    if |s| > 0 {
      assert (s + t)[0] == s[0];
      assert (s + t)[1..] == s[1..] + t;
      Utf16LengthAppend(s[1..], t);
    } else {
      assert s + t == t;
    }
  }
}
