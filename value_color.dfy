/** The colour the firmware gives a particulate reading (the textColorValue
    lambda of displayParticleCount), from the two thresholds it declares. */
module ValueColor {
  import opened FixedWidth

  const PmWarnThreshold: U16 := 10
  const PmDangerThreshold: U16 := 25

  datatype Color = Green | Yellow | Red

  /** The rank of a colour from harmless to dangerous. */
  function Severity(c: Color): nat {
    match c
    case Green => 0
    case Yellow => 1
    case Red => 2
  }

  /** Red from the danger threshold on, yellow from the warning threshold up to
      it, green below the warning threshold. */
  function TextColor(value: U16): (c: Color)
    ensures c == Red <==> value >= PmDangerThreshold
    ensures c == Yellow <==> PmWarnThreshold <= value < PmDangerThreshold
    ensures c == Green <==> value < PmWarnThreshold
  {
    if value >= PmDangerThreshold then Red
    else if value >= PmWarnThreshold then Yellow
    else Green
  }

  /** A higher reading never gets a milder colour. */
  lemma TextColorMonotone(v: U16, w: U16)
    requires v <= w
    ensures Severity(TextColor(v)) <= Severity(TextColor(w))
  {
  }
}
