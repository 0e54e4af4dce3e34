/**
 * The two-line, sixteen-column display buffer of the node.
 *
 * Each row has a working copy (lineA, lineB) and a "post" copy holding what
 * was last sent; a print writes characters from the cursor into the working
 * row, copies it into the post row, and asks for a display frame when
 * something changed or when the panel asked for a full refresh.
 */
module Display {
  import opened Codec

  const Width: nat := 16
  const Space: Byte := 32

  /** A row of spaces. */
  const Blank: seq<Byte> := [Space, Space, Space, Space, Space, Space, Space, Space,
                             Space, Space, Space, Space, Space, Space, Space, Space]

  datatype Screen = Screen(lineA: seq<Byte>, lineB: seq<Byte>, postA: seq<Byte>, postB: seq<Byte>,
                           x: int, y: int, id: Byte)

  predicate ScreenOk(s: Screen) {
    |s.lineA| == Width && |s.lineB| == Width && |s.postA| == Width && |s.postB| == Width
    && s.id <= 10
  }

  /** The row a frame is built from: lineA for row 0, lineB for any other row. */
  function Row(s: Screen): seq<Byte> {
    if s.y == 0 then s.lineA else s.lineB
  }

  /** The post copy of that row. */
  function Post(s: Screen): seq<Byte> {
    if s.y == 0 then s.postA else s.postB
  }

  /** The state after construction: blank rows and post rows, cursor at the origin, display 1. */
  function Fresh(): (s: Screen)
    ensures ScreenOk(s) && s.x == 0 && s.y == 0 && s.id == 1
    ensures s.lineA == Blank && s.lineB == Blank && s.postA == Blank && s.postB == Blank
  {
    Screen(Blank, Blank, Blank, Blank, 0, 0, 1)
  }

  /** A row of zero bytes. */
  const Zero: seq<Byte> := [0, 0, 0, 0, 0, 0, 0, 0, 0, 0, 0, 0, 0, 0, 0, 0]

  /**
   * The display of a C++ node before `init`. The class has no constructor,
   * so a global node starts zero-filled: zero bytes in the rows and their
   * post copies, cursor at the origin, display 0. `initLCD` blanks the rows
   * and sets display 1 but leaves the post copies at zero.
   */
  function Zeroed(): (s: Screen)
    ensures ScreenOk(s) && s.x == 0 && s.y == 0 && s.id == 0
    ensures forall i | 0 <= i < Width :: s.lineA[i] == 0 && s.lineB[i] == 0 && s.postA[i] == 0 && s.postB[i] == 0
  {
    Screen(Zero, Zero, Zero, Zero, 0, 0, 0)
  }

  /** `initLCD`: blank both rows, cursor to the origin, display 1; the post rows are kept. */
  function InitLcd(s: Screen): (r: Screen)
    requires ScreenOk(s)
    ensures ScreenOk(r) && r.lineA == Blank && r.lineB == Blank && r.x == 0 && r.y == 0 && r.id == 1
    ensures r.postA == s.postA && r.postB == s.postB
  {
    s.(lineA := Blank, lineB := Blank, x := 0, y := 0, id := 1)
  }

  /** `setCursor`: the position is stored unchecked; a print checks it. */
  function SetCursor(s: Screen, x: int, y: int): (r: Screen)
    ensures r.x == x && r.y == y
    ensures r.lineA == s.lineA && r.lineB == s.lineB && r.postA == s.postA && r.postB == s.postB && r.id == s.id
  {
    s.(x := x, y := y)
  }

  /** `setDisplayID`: the requested display, clamped into 1..10. */
  function SetDisplayId(s: Screen, n: int): (r: Screen)
    requires ScreenOk(s)
    ensures ScreenOk(r)
    ensures 1 <= n <= 10 ==> r.id as int == n
    ensures n < 1 ==> r.id == 1
    ensures n > 10 ==> r.id == 10
    ensures r == s.(id := r.id)
  {
    s.(id := ByteOf(if n < 1 then 1 else if n > 10 then 10 else n))
  }

  /** `clearLine0`. */
  function ClearLine0(s: Screen): (r: Screen)
    ensures r.lineA == Blank && r == s.(lineA := Blank)
  {
    s.(lineA := Blank)
  }

  /** `clearLine1`. */
  function ClearLine1(s: Screen): (r: Screen)
    ensures r.lineB == Blank && r == s.(lineB := Blank)
  {
    s.(lineB := Blank)
  }

  /** `resetPostLines`: forget what was sent, so the next print of each row differs. */
  function ResetPostLines(s: Screen): (r: Screen)
    ensures r.postA == Blank && r.postB == Blank && r == s.(postA := Blank, postB := Blank)
  {
    s.(postA := Blank, postB := Blank)
  }

  /** Whether a print writes at all: cursor column in 0..15, row 0 or 1, text non-empty. */
  predicate Writable(s: Screen, text: seq<Byte>) {
    0 <= s.x < Width && (s.y == 0 || s.y == 1) && |text| > 0
  }

  /** How many characters of `text` fit from the cursor to the end of the row. */
  function Fit(s: Screen, text: seq<Byte>): nat
    requires 0 <= s.x <= Width
  {
    if |text| < Width - s.x then |text| else Width - s.x
  }

  /** The cursor row with `text` written from the cursor and cut at the right edge. */
  function Written(s: Screen, text: seq<Byte>): (row: seq<Byte>)
    requires ScreenOk(s) && 0 <= s.x < Width
    ensures |row| == Width
    ensures forall i | 0 <= i < Width :: row[i] == (if s.x <= i < s.x + Fit(s, text) then text[i - s.x] else Row(s)[i])
  {
    var k := Fit(s, text);
    Row(s)[..s.x] + text[..k] + Row(s)[s.x + k..]
  }

  /** Store `row` as both the working and the post copy of the cursor row. */
  function WithRow(s: Screen, row: seq<Byte>, x: int): Screen {
    if s.y == 0 then s.(lineA := row, postA := row, x := x) else s.(lineB := row, postB := row, x := x)
  }

  /**
   * `writeText2Line` without its transport: the new screen and whether a
   * display frame is due. A frame is due when the written row differs from
   * its post copy or when `refresh` (the panel's full-refresh request) is on.
   */
  function WriteText(s: Screen, text: seq<Byte>, refresh: bool): (r: (Screen, bool))
    requires ScreenOk(s)
    ensures ScreenOk(r.0) && r.0.y == s.y && r.0.id == s.id
    ensures !Writable(s, text) ==> r == (s, refresh)
    ensures Writable(s, text) ==>
              r.1 == (refresh || Written(s, text) != Post(s))
              && Row(r.0) == Written(s, text) && Post(r.0) == Row(r.0)
              && r.0.x == s.x + Fit(s, text)
    ensures s.y == 0 ==> r.0.lineB == s.lineB && r.0.postB == s.postB
    ensures s.y != 0 ==> r.0.lineA == s.lineA && r.0.postA == s.postA
  {
    if Writable(s, text) then
      var row := Written(s, text);
      (WithRow(s, row, s.x + Fit(s, text)), refresh || row != Post(s))
    else
      (s, refresh)
  }

  /**
   * The character loop of `writeText2Line`: write `text` from column `x`,
   * advancing the cursor, and stop once it reaches the right edge.
   */
  method PutChars(s: Screen, text: seq<Byte>) returns (row: seq<Byte>, x: int)
    requires ScreenOk(s) && Writable(s, text)
    ensures row == Written(s, text) && x == s.x + Fit(s, text)
  {
    row := Row(s);
    x := s.x;
    var i := 0;
    while i < |text|
      invariant 0 <= i <= |text| && x == s.x + i && x < Width
      invariant i <= Fit(s, text)
      invariant |row| == Width
      invariant forall c | 0 <= c < Width :: row[c] == (if s.x <= c < x then text[c - s.x] else Row(s)[c])
    {
      row := row[x := text[i]];
      x := x + 1;
      i := i + 1;
      if x >= Width {
        break;
      }
    }
  }

  /**
   * The comparison loop of `writeText2Line`: copy every column where `row`
   * differs from `post` and report whether any did.
   */
  method SyncPost(row: seq<Byte>, post0: seq<Byte>) returns (post: seq<Byte>, changed: bool)
    requires |row| == Width && |post0| == Width
    ensures post == row
    ensures changed <==> row != post0
  {
    post := post0;
    changed := false;
    var c := 0;
    while c < Width
      invariant 0 <= c <= Width && |post| == Width
      invariant forall j | 0 <= j < c :: post[j] == row[j]
      invariant forall j | c <= j < Width :: post[j] == post0[j]
      invariant changed <==> exists j :: 0 <= j < c && row[j] != post0[j]
    {
      if row[c] != post[c] {
        changed := true;
        post := post[c := row[c]];
      }
      c := c + 1;
    }
  }

  /** `writeText2Line` step by step as the source runs it, apart from sending. */
  method WriteTextSteps(s: Screen, text: seq<Byte>, refresh: bool) returns (t: Screen, send: bool)
    requires ScreenOk(s)
    ensures (t, send) == WriteText(s, text, refresh)
  {
    var changed := false;
    t := s;
    if 0 <= s.x < Width && (s.y == 0 || s.y == 1) {
      if |text| > 0 {
        var row, x := PutChars(s, text);
        var post;
        post, changed := SyncPost(row, Post(s));
        t := WithRow(s, post, x);
      }
    }
    send := changed || refresh;
  }

  /** Printing the same text at the same place again is silent unless a refresh is pending. */
  lemma RepeatIsSilent(s: Screen, text: seq<Byte>, refresh: bool)
    requires ScreenOk(s)
    ensures var t := WriteText(s, text, refresh).0;
            WriteText(SetCursor(t, s.x, s.y), text, false).1 == false
  {
    var t := WriteText(s, text, refresh).0;
    var u := SetCursor(t, s.x, s.y);
    if Writable(s, text) {
      assert Row(u) == Written(s, text);
      assert Written(u, text) == Written(s, text);
    }
  }

  /** After a print the post copy of the cursor row matches the row: the change detector is in step. */
  lemma PrintSyncsPost(s: Screen, text: seq<Byte>, refresh: bool)
    requires ScreenOk(s) && Writable(s, text)
    ensures var t := WriteText(s, text, refresh).0;
            Post(t) == Row(t) && (t.y == 0 ==> t.postA == t.lineA) && (t.y == 1 ==> t.postB == t.lineB)
  {
  }

  /** A print that changes the row always produces a frame. */
  lemma ChangeIsSent(s: Screen, text: seq<Byte>)
    requires ScreenOk(s) && Writable(s, text) && Post(s) == Row(s)
    requires Written(s, text) != Row(s)
    ensures WriteText(s, text, false).1
  {
  }
}
