/**
 * Graphic character sets (src/ansi/charset.rs): the four designation slots
 * G0..G3, the two sets the terminal knows (ASCII and the VT100 DEC special
 * graphics set) and the table that maps a printed character through a set.
 */
module Charsets {

  datatype CharsetIndex = G0 | G1 | G2 | G3

  /** `CharsetIndex::default()`: G0, designated ASCII at startup. */
  const DefaultIndex: CharsetIndex := G0

  datatype StandardCharset = Ascii | Special

  /** `StandardCharset::default()`. */
  const DefaultCharset: StandardCharset := Ascii

  /** `index as usize`: the slot of the array a designation lives in. */
  function Slot(i: CharsetIndex): (n: nat)
    ensures n < 4
  {
    match i
    case G0 => 0
    case G1 => 1
    case G2 => 2
    case G3 => 3
  }

  /** Distinct designations live in distinct slots, and every slot has one. */
  lemma SlotBijective(i: CharsetIndex, j: CharsetIndex, n: nat)
    ensures Slot(i) == Slot(j) ==> i == j
    ensures n < 4 ==> exists k :: Slot(k) == n
  {
    if n < 4 {
      var k := if n == 0 then G0 else if n == 1 then G1 else if n == 2 then G2 else G3;
      assert Slot(k) == n;
    }
  }

  /** The characters the special graphics set redraws: '`' through '~'. */
  predicate InSpecialRange(c: char) {
    '`' <= c <= '~'
  }

  /** The DEC special graphics table: diamond, checkerboard, control pictures, line drawing, scan lines, math symbols. */
  function SpecialGraphic(c: char): (r: char)
    ensures r == c <==> !InSpecialRange(c)
    ensures InSpecialRange(c) ==> !InSpecialRange(r)
  {
    match c
    case '`' => '\U{25C6}'
    case 'a' => '\U{2592}'
    case 'b' => '\U{0009}'
    case 'c' => '\U{000C}'
    case 'd' => '\U{000D}'
    case 'e' => '\U{000A}'
    case 'f' => '\U{00B0}'
    case 'g' => '\U{00B1}'
    case 'h' => '\U{2424}'
    case 'i' => '\U{000B}'
    case 'j' => '\U{2518}'
    case 'k' => '\U{2510}'
    case 'l' => '\U{250C}'
    case 'm' => '\U{2514}'
    case 'n' => '\U{253C}'
    case 'o' => '\U{23BA}'
    case 'p' => '\U{23BB}'
    case 'q' => '\U{2500}'
    case 'r' => '\U{23BC}'
    case 's' => '\U{23BD}'
    case 't' => '\U{251C}'
    case 'u' => '\U{2524}'
    case 'v' => '\U{2534}'
    case 'w' => '\U{252C}'
    case 'x' => '\U{2502}'
    case 'y' => '\U{2264}'
    case 'z' => '\U{2265}'
    case '{' => '\U{03C0}'
    case '|' => '\U{2260}'
    case '}' => '\U{00A3}'
    case '~' => '\U{00B7}'
    case _ => c
  }

  /** `StandardCharset::map`: ASCII passes every character through; the special set redraws exactly '`'..'~'. */
  function Map(cs: StandardCharset, c: char): (r: char)
    ensures cs == Ascii ==> r == c
    ensures cs == Special ==> (r != c <==> InSpecialRange(c))
  {
    match cs
    case Ascii => c
    case Special => SpecialGraphic(c)
  }

  /** Mapping twice is mapping once: no table entry lands back in '`'..'~'. */
  lemma MapIdempotent(cs: StandardCharset, c: char)
    ensures Map(cs, Map(cs, c)) == Map(cs, c)
  {
    if cs == Special && InSpecialRange(c) {
      assert !InSpecialRange(SpecialGraphic(c));
    }
  }

  /** Line drawing: `ESC ( 0` then "lqk" draws the top edge of a box. */
  lemma MapExamples()
    ensures Map(Special, 'l') == '\U{250C}' && Map(Special, 'q') == '\U{2500}' && Map(Special, 'k') == '\U{2510}'
    ensures Map(Special, 'A') == 'A' && Map(Ascii, 'q') == 'q'
  {
  }

  /** `CharsetList`: the four designation slots, a fixed array of sets. */
  class CharsetList {
    var slots: array<StandardCharset>

    ghost predicate Valid()
      reads this
    {
      slots.Length == 4
    }

    /** `CharsetList::default()`: all four slots ASCII. */
    constructor ()
      ensures Valid() && fresh(slots)
      ensures forall i :: Get(i) == Ascii
    {
      slots := new StandardCharset[4](_ => Ascii);
    }

    /** `list[i]`. */
    function Get(i: CharsetIndex): StandardCharset
      requires Valid()
      reads this, slots
    {
      slots[Slot(i)]
    }

    /** `list[i] = cs` through `index_mut`: slot i changes and no other. */
    method Set(i: CharsetIndex, cs: StandardCharset)
      requires Valid()
      modifies slots
      ensures Valid()
      ensures Get(i) == cs
      ensures forall j :: j != i ==> Get(j) == old(Get(j))
    {
      slots[Slot(i)] := cs;
    }
  }
}
