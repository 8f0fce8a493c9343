/** Conversion of a PascalCase field name into a snake_case column name
    (case.go). Only the ASCII letters A-Z count as uppercase. */
module Case {

  predicate IsUpper(c: char) {
    'A' <= c <= 'Z'
  }

  function ToLower(c: char): (r: char)
    requires IsUpper(c)
    ensures 'a' <= r <= 'z' && !IsUpper(r)
    ensures r as int - 'a' as int == c as int - 'A' as int
  {
    (c as int + 32) as char
  }

  /** What is written for character `c` found at index `i`. */
  function Piece(i: nat, c: char): string {
    if IsUpper(c) then (if i != 0 then "_" else "") + [ToLower(c)] else [c]
  }

  /** The column name of `s`: the pieces of its characters, left to right. */
  function Snake(s: string): string
    decreases |s|
  {
    if s == [] then [] else Snake(s[..|s| - 1]) + Piece(|s| - 1, s[|s| - 1])
  }

  /** Number of uppercase letters of `s` at an index greater than 0:
      the underscores the conversion inserts. */
  function Inserted(s: string): nat
    decreases |s|
  {
    if |s| <= 1 then 0
    else Inserted(s[..|s| - 1]) + (if IsUpper(s[|s| - 1]) then 1 else 0)
  }

  /** Where the character at index `i` of `s` lands in `Snake(s)`. */
  function Pos(s: string, i: nat): nat
    requires i < |s|
  {
    i + Inserted(s[..i + 1])
  }

  method PascalToSnake(name: string) returns (r: string)
    ensures r == Snake(name)
  {
    r := [];
    for i := 0 to |name|
      invariant r == Snake(name[..i])
    {
      var ch := name[i];
      assert name[..i + 1][..i] == name[..i];
      if IsUpper(ch) {
        if i != 0 {
          r := r + ['_'];
        }
        r := r + [ToLower(ch)];
      } else {
        r := r + [ch];
      }
    }
    assert name[..|name|] == name;
  }

  /** Appending a character appends its piece. */
  lemma SnakeAppend(s: string, c: char)
    ensures Snake(s + [c]) == Snake(s) + Piece(|s|, c)
  {
    var u := s + [c];
    assert u[..|u| - 1] == s && u[|u| - 1] == c;
  }

  /** Appending text without uppercase letters appends it unchanged. */
  lemma {:induction false} SnakeAppendPlain(s: string, t: string)
    requires forall k :: 0 <= k < |t| ==> !IsUpper(t[k])
    ensures Snake(s + t) == Snake(s) + t
    decreases |t|
  {
    if t == [] {
      assert s + t == s;
    } else {
      var init, last := t[..|t| - 1], t[|t| - 1];
      var u := s + init;
      calc {
        Snake(s + t);
        { assert s + t == u + [last]; }
        Snake(u + [last]);
        { SnakeAppend(u, last); }
        Snake(u) + Piece(|u|, last);
        { SnakeAppendPlain(s, init); }
        Snake(s) + init + [last];
        { assert t == init + [last]; }
        Snake(s) + t;
      }
    }
  }

  /** Appending a capital followed by text without uppercase letters appends
      the capital's piece (an underscore unless nothing precedes it, then the
      lowered capital) and the text. */
  lemma SnakeAppendWord(s: string, c: char, t: string)
    requires IsUpper(c)
    requires forall k :: 0 <= k < |t| ==> !IsUpper(t[k])
    ensures Snake(s + [c] + t) == Snake(s) + Piece(|s|, c) + t
  {
    SnakeAppend(s, c);
    SnakeAppendPlain(s + [c], t);
  }

  /** A capitalised word becomes the same word lowered. */
  lemma SnakeOfWord(c: char, t: string)
    requires IsUpper(c)
    requires forall k :: 0 <= k < |t| ==> !IsUpper(t[k])
    ensures Snake([c] + t) == [ToLower(c)] + t
  {
    SnakeAppend([], c);
    assert [] + [c] == [c] && Piece(0, c) == [ToLower(c)];
    SnakeAppendPlain([c], t);
  }

  /** Two capitalised words join with one underscore. */
  lemma SnakeOfTwoWords(c: char, t: string, d: char, u: string)
    requires IsUpper(c) && IsUpper(d)
    requires forall k :: 0 <= k < |t| ==> !IsUpper(t[k])
    requires forall k :: 0 <= k < |u| ==> !IsUpper(u[k])
    ensures Snake([c] + t + [d] + u) == [ToLower(c)] + t + ['_', ToLower(d)] + u
  {
    var w := [c] + t;
    calc {
      Snake(w + [d] + u);
      { SnakeAppendWord(w, d, u); }
      Snake(w) + Piece(|w|, d) + u;
      { SnakeOfWord(c, t); assert Piece(|w|, d) == ['_', ToLower(d)]; }
      [ToLower(c)] + t + ['_', ToLower(d)] + u;
    }
  }

  lemma {:induction false} NoUpperInSnake(s: string)
    ensures forall k :: 0 <= k < |Snake(s)| ==> !IsUpper(Snake(s)[k])
    decreases |s|
  {
    if s != [] {
      NoUpperInSnake(s[..|s| - 1]);
    }
  }

  lemma {:induction false} SnakeLength(s: string)
    ensures |Snake(s)| == |s| + Inserted(s)
    decreases |s|
  {
    if s != [] {
      SnakeLength(s[..|s| - 1]);
    }
  }

  lemma {:induction false} InsertedMonotone(s: string, n: nat)
    requires n <= |s|
    ensures Inserted(s[..n]) <= Inserted(s)
    decreases |s|
  {
    if n < |s| {
      assert s[..|s| - 1][..n] == s[..n];
      InsertedMonotone(s[..|s| - 1], n);
    } else {
      assert s[..n] == s;
    }
  }

  /** Each character of `s` appears at `Pos(s, i)`: unchanged if it is not
      uppercase, lowered if it is, and an uppercase letter at an index other
      than 0 is preceded by an underscore. Positions strictly increase, so
      the characters keep their order. */
  lemma {:induction false} SnakeAt(s: string, i: nat)
    requires i < |s|
    ensures Pos(s, i) < |Snake(s)|
    ensures Snake(s)[Pos(s, i)] == if IsUpper(s[i]) then ToLower(s[i]) else s[i]
    ensures IsUpper(s[i]) && i > 0 ==> Snake(s)[Pos(s, i) - 1] == '_'
    decreases |s|
  {
    var init := s[..|s| - 1];
    SnakeLength(init);
    assert Snake(s) == Snake(init) + Piece(|s| - 1, s[|s| - 1]);
    if i < |s| - 1 {
      assert init[..i + 1] == s[..i + 1] && init[i] == s[i];
      SnakeAt(init, i);
      assert Pos(s, i) == Pos(init, i);
    } else {
      assert s[..i + 1] == s;
      assert Inserted(s) == Inserted(init) + (if IsUpper(s[i]) && i > 0 then 1 else 0);
      assert Pos(s, i) == |Snake(init)| + (if IsUpper(s[i]) && i > 0 then 1 else 0);
    }
  }

  lemma {:induction false} PosIncreasing(s: string, i: nat, j: nat)
    requires i < j < |s|
    ensures Pos(s, i) < Pos(s, j)
  {
    assert s[..j + 1][..i + 1] == s[..i + 1];
    InsertedMonotone(s[..j + 1], i + 1);
  }

  /** A name without uppercase letters is its own column name. */
  lemma {:induction false} SnakeOfLowerIsIdentity(s: string)
    requires forall k :: 0 <= k < |s| ==> !IsUpper(s[k])
    ensures Snake(s) == s
    decreases |s|
  {
    if s != [] {
      SnakeOfLowerIsIdentity(s[..|s| - 1]);
      assert s == s[..|s| - 1] + [s[|s| - 1]];
    }
  }

  /** Converting twice is converting once. */
  lemma SnakeIdempotent(s: string)
    ensures Snake(Snake(s)) == Snake(s)
  {
    NoUpperInSnake(s);
    SnakeOfLowerIsIdentity(Snake(s));
  }

  /** The column name starts with an underscore exactly when the field name does. */
  lemma LeadingUnderscore(s: string)
    requires s != []
    ensures Snake(s) != [] && (Snake(s)[0] == '_' <==> s[0] == '_')
  {
    SnakeAt(s, 0);
    assert Pos(s, 0) == 0;
  }
}
