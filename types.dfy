/** The transformer record the store holds (the voltage-reading payload is never read by it). */
module TransformerTypes {

  datatype Health = Excellent | Good | Fair | Poor | Critical

  /** The string literal each health value is in the record. */
  function HealthName(h: Health): (r: string)
    ensures r != ""
  {
    match h
    case Excellent => "Excellent"
    case Good => "Good"
    case Fair => "Fair"
    case Poor => "Poor"
    case Critical => "Critical"
  }

  datatype Transformer = Transformer(assetId: int, name: string, region: string, health: Health)
}
