/** Size limits and the character alphabet every strategic maze must respect. */
module MazeConstants {
  import opened MazeCommon

  /** The three size limits the parser enforces; the strategic evaluator and its
      one-file copy differ only in these numbers. */
  datatype Limits = Limits(maxRows: nat, maxCols: nat, maxCells: nat)
  {
    predicate Consistent() { maxCells == maxRows * maxCols }
  }

  const MaxRows: nat := 64
  const MaxCols: nat := 64
  const MaxCells: nat := MaxRows * MaxCols

  /** Limits of the split strategic modules. */
  const StrategicLimits: Limits := Limits(MaxRows, MaxCols, MaxCells)

  /** Limits of the one-file copy of the strategic evaluator. */
  const FixedLimits: Limits := Limits(32, 32, 32 * 32)

  lemma LimitsAreConsistent()
    ensures StrategicLimits.Consistent() && StrategicLimits.maxCells == 4096
    ensures FixedLimits.Consistent() && FixedLimits.maxCells == 1024
  {
  }

  /** The named maze characters, before the two letter ranges are added. */
  const NamedMazeChars: set<char> :=
    {'#', 'S', 'E', 'K', 'D', 'T', 'O', 'Q', 's', 'B', 'F', 'G', 'H', 'X', 'Y', 'Z'}

  /** Membership in the alphabet: the named characters united with `a`..`z` and `A`..`Z`. */
  predicate IsValidMazeChar(ch: char)
  {
    ch in NamedMazeChars || IsLower(ch) || IsUpper(ch)
  }

  /** The named entries add only `'#'` to the two letter ranges. */
  lemma ValidMazeCharsExactly(ch: char)
    ensures IsValidMazeChar(ch) <==> ch == '#' || IsLower(ch) || IsUpper(ch)
  {
  }

  /** Space and the digits are outside the alphabet; the validator admits space on its own. */
  lemma SpaceAndDigitsInvalid(ch: char)
    requires ch == ' ' || '0' <= ch <= '9'
    ensures !IsValidMazeChar(ch)
  {
  }

  /** A character the validator accepts in a grid cell. */
  predicate IsGridChar(ch: char) { IsValidMazeChar(ch) || ch == ' ' }
}
