/** The LaTeX rendering of the vertex words: each word as a product of subscripted
    generator symbols (`e` for the identity), laid out as the cells of an `array`
    environment with a fixed number of columns. */
module Latex {
  import opened Words

  /** The text produced, or the `ZeroDivisionError` raised when there are words to lay out
      in zero columns. */
  datatype Formatted = Formatted(text: string) | DivisionByZero

  /** The LaTeX row break `\\`. */
  const RowBreak := "\\\\"

  /** Python's `a % b`: the remainder lies between zero and `b`, on the side of `b`. */
  function PyMod(a: int, b: int): (r: int)
    requires b != 0
    ensures b > 0 ==> 0 <= r < b
    ensures b < 0 ==> b < r <= 0
  {
    if b > 0 then a % b
    else
      var r := a % -b;
      if r == 0 then 0 else r + b
  }

  /** Only zero times a positive `c` lies strictly between `-c` and `c`. */
  lemma MulZero(c: int, d: int)
    requires c >= 1 && -c < c * d < c
    ensures d == 0
  {
  }

  /** Division with remainder is unique. */
  lemma ModUnique(x: int, c: int, q: int, r: int)
    requires c >= 1 && 0 <= r < c && x == c * q + r
    ensures x % c == r && x / c == q
  {
    var q', r' := x / c, x % c;
    assert c * q' + r' == c * q + r;
    assert c * (q - q') == r' - r;
    MulZero(c, q - q');
  }

  /** Counting on by one moves to the next column, or back to the first. */
  lemma ModSucc(x: nat, c: nat)
    requires c >= 1
    ensures (x + 1) % c == if x % c == c - 1 then 0 else x % c + 1
  {
    var q, r := x / c, x % c;
    if r == c - 1 {
      assert x + 1 == c * (q + 1) + 0;
      ModUnique(x + 1, c, q + 1, 0);
    } else {
      ModUnique(x + 1, c, q, r + 1);
    }
  }

  /** Counting on by a whole row stays in the same column. */
  lemma ModAddSelf(x: nat, c: nat)
    requires c >= 1
    ensures (x + c) % c == x % c
  {
    var q, r := x / c, x % c;
    assert x + c == c * (q + 1) + r;
    ModUnique(x + c, c, q + 1, r);
  }

  // ---------------------------------------------------------------------------------------
  // Decimal numerals (`"{}".format(i)` for `i >= 0`)

  predicate IsDigit(c: char)
  {
    '0' <= c <= '9'
  }

  function Digit(d: nat): (c: char)
    requires d < 10
    ensures IsDigit(c) && c as int - '0' as int == d
  {
    "0123456789"[d]
  }

  /** The decimal numeral of `n`, without leading zeros. */
  function NatToString(n: nat): (s: string)
    ensures |s| >= 1 && forall k | 0 <= k < |s| :: IsDigit(s[k])
    decreases n
  {
    if n < 10 then [Digit(n)] else NatToString(n / 10) + [Digit(n % 10)]
  }

  /** The number a string of digits denotes. */
  function DigitsValue(s: string): nat
    requires forall k | 0 <= k < |s| :: IsDigit(s[k])
  {
    if s == [] then 0
    else
      var last := s[|s| - 1];
      assert IsDigit(last);
      10 * DigitsValue(s[..|s| - 1]) + (last as int - '0' as int)
  }

  /** Reading back the numeral gives the number, and the numeral has no leading zero. */
  lemma {:induction false} NatToStringRoundTrip(n: nat)
    ensures DigitsValue(NatToString(n)) == n
    ensures n > 0 ==> NatToString(n)[0] != '0'
    decreases n
  {
    if n >= 10 {
      NatToStringRoundTrip(n / 10);
      var s := NatToString(n / 10);
      assert (s + [Digit(n % 10)])[..|s|] == s;
    }
  }

  /** Numerals of different numbers differ. */
  lemma NatToStringInjective(a: nat, b: nat)
    requires NatToString(a) == NatToString(b)
    ensures a == b
  {
    NatToStringRoundTrip(a);
    NatToStringRoundTrip(b);
  }

  // ---------------------------------------------------------------------------------------
  // Words

  /** The generator index shown for a letter: in snub mode generators come in pairs
      (a rotation and its inverse), so letter `g` shows as `g // 2`. */
  function Shown(g: nat, snub: bool): (r: nat)
    ensures snub ==> 2 * r <= g < 2 * r + 2
    ensures !snub ==> r == g
  {
    if snub then g / 2 else g
  }

  /** `symbol + "_{i}"`. */
  function Subscript(symbol: string, i: nat): (s: string)
    ensures |s| == |symbol| + |NatToString(i)| + 3
  {
    symbol + "_{" + NatToString(i) + "}"
  }

  /** The subscripted symbols of the letters of `w`, one after the other. */
  function Letters(symbol: string, w: Word, snub: bool): (s: string)
    ensures |s| >= 4 * |w|
  {
    if w == [] then "" else Subscript(symbol, Shown(w[0], snub)) + Letters(symbol, w[1..], snub)
  }

  /** `to_latex(word)`: `e` for the empty word, the subscripted letters otherwise. */
  function WordToLatex(symbol: string, w: Word, snub: bool): (s: string)
    ensures s == "e" <==> w == []
  {
    if w == [] then "e"
    else
      assert |Letters(symbol, w, snub)| >= 4;
      Letters(symbol, w, snub)
  }

  /** Rendering a product renders its factors in turn. */
  lemma {:induction false} LettersAppend(symbol: string, u: Word, v: Word, snub: bool)
    ensures Letters(symbol, u + v, snub) == Letters(symbol, u, snub) + Letters(symbol, v, snub)
    decreases |u|
  {
    if u != [] {
      assert (u + v)[0] == u[0] && (u + v)[1..] == u[1..] + v;
      LettersAppend(symbol, u[1..], v, snub);
    } else {
      assert u + v == v;
    }
  }

  /** A one-letter word shows its generator index (halved in snub mode) as a subscript. */
  lemma LetterShown(symbol: string, g: nat, snub: bool)
    ensures WordToLatex(symbol, [g], snub) == symbol + "_{" + NatToString(if snub then g / 2 else g) + "}"
  {
    assert [g][1..] == [];
    assert Letters(symbol, [g], snub) == Subscript(symbol, Shown(g, snub)) + "";
  }

  /** The cells of the array: one rendered word per vertex. */
  function Cells(symbol: string, words: seq<Word>, snub: bool): (cells: seq<string>)
    ensures |cells| == |words|
    ensures forall k | 0 <= k < |words| :: cells[k] == WordToLatex(symbol, words[k], snub)
  {
    seq(|words|, k requires 0 <= k < |words| => WordToLatex(symbol, words[k], snub))
  }

  // ---------------------------------------------------------------------------------------
  // The array body, as the source's loop writes it

  /** What the loop writes for cell number `i`: a row break `\\` before the first cell of
      every row but the first, the cell, and an `&` after every cell but the last of a row. */
  function Entry(i: nat, cell: string, cols: int): string
    requires cols != 0
  {
    (if i > 0 && PyMod(i, cols) == 0 then RowBreak else "") + cell + (if PyMod(i, cols) != cols - 1 then "&" else "")
  }

  /** The entries of `cells`, the first being cell number `start`. */
  function BodyAt(cells: seq<string>, cols: int, start: nat): string
    requires cols != 0 || cells == []
  {
    if cells == [] then "" else Entry(start, cells[0], cols) + BodyAt(cells[1..], cols, start + 1)
  }

  /** `\begin{array}{ll...l}` with one `l` per column, the body, `\end{array}`; zero columns
      divide by zero as soon as there is a cell. */
  function LatexArray(symbol: string, words: seq<Word>, cols: int, snub: bool): (r: Formatted)
    ensures r.DivisionByZero? <==> cols == 0 && words != []
  {
    if cols == 0 && words != [] then DivisionByZero
    else
      var columns := seq(Times(cols), _ => 'l');
      Formatted("\\begin{array}{" + columns + "}" + BodyAt(Cells(symbol, words, snub), cols, 0) + "\\end{array}")
  }

  lemma {:induction false} BodyAppend(u: seq<string>, v: seq<string>, cols: int, start: nat)
    requires cols != 0
    ensures BodyAt(u + v, cols, start) == BodyAt(u, cols, start) + BodyAt(v, cols, start + |u|)
    decreases |u|
  {
    if u != [] {
      assert (u + v)[0] == u[0] && (u + v)[1..] == u[1..] + v;
      BodyAppend(u[1..], v, cols, start + 1);
    } else {
      assert u + v == v;
    }
  }

  /** The body of a single cell is its entry. */
  lemma BodySingle(cell: string, cols: int, i: nat)
    requires cols != 0
    ensures BodyAt([cell], cols, i) == Entry(i, cell, cols)
  {
    assert [cell][1..] == [];
  }

  /** The loop's next step: the body of one more cell is the body so far and its entry. */
  lemma BodySnoc(cells: seq<string>, i: nat, cols: int)
    requires cols != 0 && i < |cells|
    ensures BodyAt(cells[..i + 1], cols, 0) == BodyAt(cells[..i], cols, 0) + Entry(i, cells[i], cols)
  {
    var prefix := cells[..i];
    assert cells[..i + 1] == prefix + [cells[i]];
    BodyAppend(prefix, [cells[i]], cols, 0);
    BodySingle(cells[i], cols, i);
  }

  // ---------------------------------------------------------------------------------------
  // The array body, row by row

  /** The cells separated by `sep`. */
  function Join(cells: seq<string>, sep: string): string
  {
    if |cells| <= 1 then (if cells == [] then "" else cells[0]) else cells[0] + sep + Join(cells[1..], sep)
  }

  /** Every cell followed by `sep`. */
  function Terminated(cells: seq<string>, sep: string): string
  {
    if cells == [] then "" else cells[0] + sep + Terminated(cells[1..], sep)
  }

  /** A tabular body with `cols` cells per row: full rows joined with `&`, rows separated by
      `\\`, and a last, incomplete row with an `&` after every cell. */
  function Tabular(cells: seq<string>, cols: nat): string
    requires cols >= 1
    decreases |cells|
  {
    if |cells| < cols then Terminated(cells, "&")
    else if |cells| == cols then Join(cells, "&")
    else Join(cells[..cols], "&") + RowBreak + Tabular(cells[cols..], cols)
  }

  /** The cells from a column other than the first to the end of a row: joined with `&` if
      they complete the row, each followed by `&` if they do not. */
  lemma {:induction false} RowBody(cells: seq<string>, cols: nat, pos: nat)
    requires cols >= 1 && 1 <= pos % cols && pos % cols + |cells| <= cols
    ensures BodyAt(cells, cols, pos) ==
      if pos % cols + |cells| == cols then Join(cells, "&") else Terminated(cells, "&")
    decreases |cells|
  {
    if |cells| >= 2 {
      ModSucc(pos, cols);
      RowBody(cells[1..], cols, pos + 1);
    } else if |cells| == 1 {
      assert cells[1..] == [];
    }
  }

  /** The first row of `cells`, starting a row at `pos`, with the row break in front of it
      when it is not the first row of the array. */
  lemma FirstRow(cells: seq<string>, cols: nat, pos: nat, r: nat)
    requires cols >= 1 && pos % cols == 0 && 1 <= r == |cells| <= cols
    ensures BodyAt(cells, cols, pos) ==
      (if pos > 0 then RowBreak else "") + (if r == cols then Join(cells, "&") else Terminated(cells, "&"))
  {
    var sep := if pos > 0 then RowBreak else "";
    if r >= 2 {
      ModSucc(pos, cols);
      RowBody(cells[1..], cols, pos + 1);
      var tail := BodyAt(cells[1..], cols, pos + 1);
      assert BodyAt(cells, cols, pos) == (sep + cells[0] + "&") + tail;
      if r == cols {
        assert Join(cells, "&") == cells[0] + "&" + Join(cells[1..], "&");
      } else {
        assert Terminated(cells, "&") == cells[0] + "&" + Terminated(cells[1..], "&");
      }
      assert (sep + cells[0] + "&") + tail == sep + (cells[0] + "&" + tail);
    } else {
      assert cells[1..] == [];
      assert PyMod(pos, cols) == 0;
      assert BodyAt(cells, cols, pos) == Entry(pos, cells[0], cols) + "";
      if cols == 1 {
        assert Join(cells, "&") == cells[0];
        assert Entry(pos, cells[0], cols) == sep + cells[0] + "";
      } else {
        assert Terminated(cells, "&") == cells[0] + "&" + "";
        assert Entry(pos, cells[0], cols) == sep + cells[0] + "&";
      }
    }
  }

  /** The source's cell-by-cell loop writes the row-by-row tabular body (behind a row break
      when it does not start the array). */
  lemma {:induction false} BodyIsTabular(cells: seq<string>, cols: nat, pos: nat)
    requires cols >= 1 && pos % cols == 0
    ensures BodyAt(cells, cols, pos) == (if pos > 0 && cells != [] then RowBreak else "") + Tabular(cells, cols)
    decreases |cells|
  {
    var sep := if pos > 0 then RowBreak else "";
    if cells != [] && |cells| <= cols {
      FirstRow(cells, cols, pos, |cells|);
    } else if |cells| > cols {
      var row, rest := cells[..cols], cells[cols..];
      assert cells == row + rest;
      BodyAppend(row, rest, cols, pos);
      FirstRow(row, cols, pos, cols);
      ModAddSelf(pos, cols);
      BodyIsTabular(rest, cols, pos + cols);
      assert BodyAt(cells, cols, pos) == (sep + Join(row, "&")) + (RowBreak + Tabular(rest, cols));
      assert Tabular(cells, cols) == Join(row, "&") + RowBreak + Tabular(rest, cols);
    }
  }

  /** With at least one column the array body is the row-by-row tabular layout. */
  lemma LatexArrayTabular(symbol: string, words: seq<Word>, cols: nat, snub: bool)
    requires cols >= 1
    ensures LatexArray(symbol, words, cols, snub) ==
      Formatted("\\begin{array}{" + seq(cols, _ => 'l') + "}" + Tabular(Cells(symbol, words, snub), cols) + "\\end{array}")
  {
    BodyIsTabular(Cells(symbol, words, snub), cols, 0);
  }
}
