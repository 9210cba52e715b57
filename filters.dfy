/** The category chips of components/Filters.js. */
module Filters {
  import opened Text
  import opened Home

  const SelectedBackground := "#EE9972"
  const IdleBackground := "#495E57"
  const SelectedText := "black"
  const IdleText := "white"

  /** One pressable chip: its title, the index it reports, and its colours. */
  datatype Chip = Chip(title: string, index: nat, background: string, textColor: string)

  /** `section.charAt(0).toUpperCase() + section.slice(1)`. */
  function Capitalize(s: string): (r: string)
    ensures |r| == |s|
    ensures s != "" ==> r[0] == UpperChar(s[0]) && r[1..] == s[1..]
    ensures r == "" <==> s == ""
  {
    if s == "" then "" else [UpperChar(s[0])] + s[1..]
  }

  /** Capitalising twice is capitalising once. */
  lemma CapitalizeIdempotent(s: string)
    ensures Capitalize(Capitalize(s)) == Capitalize(s)
  {
    if s != "" {
      var r := Capitalize(s);
      assert Capitalize(r) == [UpperChar(r[0])] + r[1..];
      assert [UpperChar(s[0])] + s[1..] == r;
    }
  }

  /** The chip drawn for `section` at `index`. */
  function ChipAt(section: string, index: nat, selections: seq<bool>): Chip {
    var on := Selected(selections, index);
    Chip(Capitalize(section), index,
      if on then SelectedBackground else IdleBackground,
      if on then SelectedText else IdleText)
  }

  /** `sections.map(...)`: one chip per section, in section order. */
  function Chips(sections: seq<string>, selections: seq<bool>): (chips: seq<Chip>)
    ensures |chips| == |sections|
    ensures forall i :: 0 <= i < |chips| ==> chips[i].index == i && chips[i].title == Capitalize(sections[i])
    ensures forall i :: 0 <= i < |chips| ==>
      (chips[i].background == SelectedBackground <==> Selected(selections, i)) &&
      (chips[i].textColor == SelectedText <==> Selected(selections, i))
  {
    seq(|sections|, i requires 0 <= i < |sections| => ChipAt(sections[i], i, selections))
  }

  /** `onPress`: the chip reports its own index to `onChange`. */
  function Press(chip: Chip): nat {
    chip.index
  }

  /** Pressing a chip of the Home screen flips that chip's own section and no other. */
  lemma PressFlipsOwnSection(selections: seq<bool>, i: nat)
    requires |selections| == |Sections| && i < |Sections|
    ensures var chips := Chips(Sections, selections);
            var after := Toggle(selections, Press(chips[i]));
            Selected(after, i) == !Selected(selections, i)
            && (forall j :: 0 <= j < |Sections| && j != i ==> Selected(after, j) == Selected(selections, j))
            && Chips(Sections, after)[i].background != chips[i].background
  {
  }

  /** The Home screen starts with three idle chips labelled Starters, Mains and Desserts. */
  lemma HomeChips()
    ensures var chips := Chips(Sections, InitialSelections(Sections));
            && |chips| == 3
            && chips[0].title == "Starters" && chips[1].title == "Mains" && chips[2].title == "Desserts"
            && forall i :: 0 <= i < 3 ==> chips[i].background == IdleBackground
  {
    var chips := Chips(Sections, InitialSelections(Sections));
    assert Capitalize("starters") == "Starters";
    assert Capitalize("mains") == "Mains";
    assert Capitalize("desserts") == "Desserts";
  }
}
