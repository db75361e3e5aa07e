/**
 * The rune value type (Rune.java): a type drawn from a fixed palette of seven,
 * plus the transient `isMatched` flag used while one resolution pass runs.
 */
module Runes {

  /** The seven rune types, in the order of the source's palette. */
  datatype RuneType = Fire | Water | Air | Metal | Ice | Thunder | Plant

  const PaletteSize: nat := 7

  /** The palette's names, as the source lists them. */
  const PossibleTypes: seq<string> := ["Fire", "Water", "Air", "Metal", "Ice", "Thunder", "Plant"]

  /** The `typeName` a rune of type `t` carries. */
  function TypeName(t: RuneType): (name: string)
    ensures name in PossibleTypes
  {
    match t
    case Fire => "Fire"
    case Water => "Water"
    case Air => "Air"
    case Metal => "Metal"
    case Ice => "Ice"
    case Thunder => "Thunder"
    case Plant => "Plant"
  }

  /** The palette entry at index `i`, as `possibleTypes[i]` selects it. */
  function TypeAt(i: nat): (t: RuneType)
    requires i < PaletteSize
    ensures TypeName(t) == PossibleTypes[i]
  {
    [Fire, Water, Air, Metal, Ice, Thunder, Plant][i]
  }

  /** Two runes have equal type names exactly when they have equal types. */
  lemma TypeNameInjective(a: RuneType, b: RuneType)
    ensures TypeName(a) == TypeName(b) <==> a == b
  {
  }

  /** Every palette name is the name of some rune type. */
  lemma PaletteCoversTypes(name: string)
    requires name in PossibleTypes
    ensures exists t :: TypeName(t) == name
  {
    var i :| 0 <= i < |PossibleTypes| && PossibleTypes[i] == name;
    assert TypeName(TypeAt(i)) == name;
  }

  datatype Rune = Rune(kind: RuneType, isMatched: bool)

  /**
   * `new Rune()`: the random draw `draw` picks the palette entry
   * `draw % PaletteSize` (the source's `nextInt(possibleTypes.length)`);
   * a new rune is not matched.
   */
  function NewRune(draw: nat): (r: Rune)
    ensures TypeName(r.kind) == PossibleTypes[draw % PaletteSize]
    ensures !r.isMatched
  {
    Rune(TypeAt(draw % PaletteSize), false)
  }

  /** The copy constructor: the type is copied, the flag is not, so the copy starts unmatched. */
  function CopyRune(r: Rune): (copy: Rune)
    ensures TypeName(copy.kind) == TypeName(r.kind)
    ensures !copy.isMatched
  {
    Rune(r.kind, false)
  }

  /** `setIsMatched`: the flag becomes true whatever argument is passed. */
  function SetIsMatched(r: Rune, isMatched: bool): (flagged: Rune)
    ensures flagged.kind == r.kind
    ensures flagged.isMatched
  {
    Rune(r.kind, true)
  }

  /** The only mutator of the flag never clears it, and setting it twice is setting it once. */
  lemma FlagNeverCleared(r: Rune, a: bool, b: bool)
    ensures r.isMatched ==> SetIsMatched(r, a).isMatched
    ensures SetIsMatched(SetIsMatched(r, a), b) == SetIsMatched(r, b)
  {
  }
}
