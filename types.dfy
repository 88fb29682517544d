/** The record shapes the engine passes around. */
module Types {

  /** Heritable traits (`Genome`). */
  datatype Genome = Genome(metabolism: real, harvest: real, aggression: real)

  /** An organism (`Agent`): identity, lineage (clade), species, grid cell, energy, age and genome. */
  datatype Agent = Agent(
    id: int,
    lineage: int,
    species: int,
    x: int,
    y: int,
    energy: real,
    age: int,
    genome: Genome)

  /** One tick of a taxon's history (`TaxonTimelinePoint`). */
  datatype TaxonTimelinePoint = TaxonTimelinePoint(tick: int, population: nat, births: nat, deaths: nat)

  function SpeciesOf(a: Agent): int { a.species }

  function LineageOf(a: Agent): int { a.lineage }
}
