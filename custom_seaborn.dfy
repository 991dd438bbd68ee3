/**
 * The ColorPalette of the styling script: a display name and a colour table
 * that add_color and remove_color change in place. The table is kept as a
 * sequence of entries in insertion order with distinct names (the object
 * invariant Valid), and every method is specified through the functions of
 * ColorTable.
 */
module CustomSeaborn {
  import opened Wrappers
  import opened ColorTable

  /** The name a palette gets when none is given. */
  const DefaultPaletteName: string := "Irag's Palette (Default)"

  /** The 14 built-in colours, in the order they are declared. */
  function DefaultColors(): seq<Entry>
  {
    [ Entry("push to bg", "#DDDDDD"),
      Entry("dark gray", "#3b3b3b"),
      Entry("gray", "gray"),
      Entry("light gray", "#BFBFBF"),
      Entry("dark blue", "#072ea5"),
      Entry("blue", "#5099fe"),
      Entry("light blue", "#91c2ed"),
      Entry("light orange", "#fbb181"),
      Entry("orange", "#FB7B33"),
      Entry("dark orange", "#ff3e06"),
      Entry("dark teal", "#299ba1"),
      Entry("teal", "#2e99a2"),
      Entry("light teal", "#8af0dd"),
      Entry("soft black", "#333333") ]
  }

  /** The built-in table has 14 entries with distinct names. */
  lemma DefaultColorsDistinct()
    ensures |DefaultColors()| == 14 && DistinctKeys(DefaultColors())
  {
  }

  /** Every built-in name resolves to its listed value. */
  lemma DefaultColorsResolve()
    ensures Lookup(DefaultColors(), "push to bg") == Some("#DDDDDD")
    ensures Lookup(DefaultColors(), "dark gray") == Some("#3b3b3b")
    ensures Lookup(DefaultColors(), "gray") == Some("gray")
    ensures Lookup(DefaultColors(), "light gray") == Some("#BFBFBF")
    ensures Lookup(DefaultColors(), "dark blue") == Some("#072ea5")
    ensures Lookup(DefaultColors(), "blue") == Some("#5099fe")
    ensures Lookup(DefaultColors(), "light blue") == Some("#91c2ed")
    ensures Lookup(DefaultColors(), "light orange") == Some("#fbb181")
    ensures Lookup(DefaultColors(), "orange") == Some("#FB7B33")
    ensures Lookup(DefaultColors(), "dark orange") == Some("#ff3e06")
    ensures Lookup(DefaultColors(), "dark teal") == Some("#299ba1")
    ensures Lookup(DefaultColors(), "teal") == Some("#2e99a2")
    ensures Lookup(DefaultColors(), "light teal") == Some("#8af0dd")
    ensures Lookup(DefaultColors(), "soft black") == Some("#333333")
  {
    var d := DefaultColors();
    DefaultColorsDistinct();
    LookupAt(d, 0);
    LookupAt(d, 1);
    LookupAt(d, 2);
    LookupAt(d, 3);
    LookupAt(d, 4);
    LookupAt(d, 5);
    LookupAt(d, 6);
    LookupAt(d, 7);
    LookupAt(d, 8);
    LookupAt(d, 9);
    LookupAt(d, 10);
    LookupAt(d, 11);
    LookupAt(d, 12);
    LookupAt(d, 13);
  }

  class ColorPalette {
    var paletteName: string
    var colors: seq<Entry>

    /** Object invariant: colour names are unique. */
    ghost predicate Valid()
      reads this
    {
      DistinctKeys(colors)
    }

    constructor (paletteName: string := DefaultPaletteName)
      ensures Valid()
      ensures this.paletteName == paletteName && colors == DefaultColors()
    {
      this.paletteName := paletteName;
      colors := DefaultColors();
      new;
      DefaultColorsDistinct();
    }

    /** Insert or overwrite the colour called name. */
    method AddColor(name: string, value: string)
      requires Valid()
      modifies this
      ensures Valid() && paletteName == old(paletteName)
      ensures colors == Put(old(colors), name, value)
      ensures Color(name) == Some(value)
      ensures forall m :: m != name ==> Color(m) == old(Color(m))
      ensures |colors| == if old(HasKey(colors, name)) then old(|colors|) else old(|colors|) + 1
    {
      ghost var before := colors;
      colors := Put(colors, name, value);
      PutDistinct(before, name, value);
      PutLookupSame(before, name, value);
      forall m | m != name ensures Lookup(colors, m) == Lookup(before, m) {
        PutLookupOther(before, name, value, m);
      }
    }

    /** The value of the colour called name, or None when there is none. */
    function Color(name: string): (r: Option<string>)
      reads this
      requires Valid()
      ensures r.Some? <==> HasKey(colors, name)
      ensures forall i :: 0 <= i < |colors| && colors[i].name == name ==> r == Some(colors[i].value)
    {
      assert forall i :: 0 <= i < |colors| && colors[i].name == name ==>
        Lookup(colors, name) == Some(colors[i].value) by {
        forall i | 0 <= i < |colors| && colors[i].name == name
          ensures Lookup(colors, name) == Some(colors[i].value)
        {
          LookupAt(colors, i);
        }
      }
      Lookup(colors, name)
    }

    /** Remove the colour called name; a missing name yields the notice the
        palette prints and changes nothing. */
    method RemoveColor(name: string) returns (notice: Option<string>)
      requires Valid()
      modifies this
      ensures Valid() && paletteName == old(paletteName)
      ensures colors == Delete(old(colors), name)
      ensures notice == if old(HasKey(colors, name)) then None
                        else Some("Color '" + name + "' not found in the palette.")
      ensures Color(name) == None
      ensures forall m :: m != name ==> Color(m) == old(Color(m))
      ensures !old(HasKey(colors, name)) ==> colors == old(colors)
      ensures forall i :: 0 <= i < old(|colors|) && old(colors[i].name) == name ==>
        colors == old(colors[..i]) + old(colors[i + 1..])
    {
      ghost var before := colors;
      if Lookup(colors, name).Some? {
        colors := Delete(colors, name);
        notice := None;
      } else {
        DeleteAbsent(colors, name);
        notice := Some("Color '" + name + "' not found in the palette.");
      }
      DeleteDistinct(before, name);
      forall m ensures Lookup(colors, m) == if m == name then None else Lookup(before, m) {
        DeleteLookup(before, name, m);
      }
      forall i | 0 <= i < |before| && before[i].name == name
        ensures colors == before[..i] + before[i + 1..]
      {
        DeletePresent(before, name, i);
      }
    }

    /** The current table: unique names, and every name reads through it as through Color. */
    function ListColors(): (r: seq<Entry>)
      reads this
      requires Valid()
      ensures DistinctKeys(r)
      ensures forall n :: Lookup(r, n) == Color(n)
    {
      colors
    }

    /** The lines the palette prints: "<name> is empty." for an empty table,
        otherwise a header and one "colour: value" line per entry in order. */
    method DisplayPalette() returns (lines: seq<string>)
      ensures lines == DisplayLines(paletteName, colors)
      ensures colors == [] ==> lines == [paletteName + " is empty."]
      ensures colors != [] ==>
        |lines| == |colors| + 1 && lines[0] == "Palette: " + paletteName &&
        forall k :: 0 <= k < |colors| ==> lines[k + 1] == colors[k].name + ": " + colors[k].value
    {
      if colors == [] {
        lines := [paletteName + " is empty."];
      } else {
        lines := ["Palette: " + paletteName];
        for i := 0 to |colors|
          invariant lines == ["Palette: " + paletteName] + EntryLines(colors[..i])
        {
          assert colors[..i + 1][..i] == colors[..i];
          lines := lines + [EntryLine(colors[i])];
        }
        assert colors[..|colors|] == colors;
      }
      DisplayLinesShape(paletteName, colors);
    }
  }
}
