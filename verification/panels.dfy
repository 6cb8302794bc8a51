/** The panel kinds of the brush viewer and their fixed titles
    (crates/brush-viewer/src/panels/mod.rs). The viewer keys its set of open
    panels by title, so the title mapping has to be injective. */
module Panels {
  import opened Wrappers

  datatype PanelType =
    | ViewOptions
    | TrainingOptions
    | Presets
    | Stats
    | Rerun
    | Datasets
    | Dummy

  /** The explicit enum discriminant of each variant. */
  function Discriminant(p: PanelType): (r: nat)
    ensures r <= 6
  {
    match p
    case ViewOptions => 0
    case TrainingOptions => 1
    case Presets => 2
    case Stats => 3
    case Rerun => 4
    case Datasets => 5
    case Dummy => 6
  }

  /** The panel with a given discriminant. */
  function FromDiscriminant(d: nat): (r: Option<PanelType>)
    ensures r.Some? <==> d <= 6
  {
    if d == 0 then Some(ViewOptions)
    else if d == 1 then Some(TrainingOptions)
    else if d == 2 then Some(Presets)
    else if d == 3 then Some(Stats)
    else if d == 4 then Some(Rerun)
    else if d == 5 then Some(Datasets)
    else if d == 6 then Some(Dummy)
    else None
  }

  /** The discriminants are the seven distinct values 0..6, one per variant. */
  lemma DiscriminantRoundTrip(p: PanelType, d: nat)
    ensures FromDiscriminant(Discriminant(p)) == Some(p)
    ensures d <= 6 ==> Discriminant(FromDiscriminant(d).value) == d
  {
  }

  lemma DiscriminantsDistinct(p: PanelType, q: PanelType)
    ensures Discriminant(p) == Discriminant(q) <==> p == q
  {
    DiscriminantRoundTrip(p, 0);
    DiscriminantRoundTrip(q, 0);
  }

  /** `panel_title`. */
  function PanelTitle(p: PanelType): string
  {
    match p
    case ViewOptions => "View Options"
    case TrainingOptions => "Training Options"
    case Presets => "Presets"
    case Stats => "Stats"
    case Rerun => "Rerun"
    case Datasets => "Datasets"
    case Dummy => ""
  }

  /** The panel that carries a given title, if any. */
  function PanelWithTitle(title: string): (r: Option<PanelType>)
  {
    if title == "View Options" then Some(ViewOptions)
    else if title == "Training Options" then Some(TrainingOptions)
    else if title == "Presets" then Some(Presets)
    else if title == "Stats" then Some(Stats)
    else if title == "Rerun" then Some(Rerun)
    else if title == "Datasets" then Some(Datasets)
    else if title == "" then Some(Dummy)
    else None
  }

  /** The title determines the panel: looking a title up gives back its panel,
      and every title that is found belongs to the panel found. */
  lemma TitleRoundTrip(p: PanelType, title: string)
    ensures PanelWithTitle(PanelTitle(p)) == Some(p)
    ensures PanelWithTitle(title).Some? ==> PanelTitle(PanelWithTitle(title).value) == title
  {
  }

  /** Titles are pairwise distinct, so a title in the open-panel set names a
      single panel type. */
  lemma TitlesDistinct(p: PanelType, q: PanelType)
    ensures PanelTitle(p) == PanelTitle(q) <==> p == q
  {
    TitleRoundTrip(p, "");
    TitleRoundTrip(q, "");
  }

  /** Only the placeholder panel has the empty title. */
  lemma OnlyDummyUntitled(p: PanelType)
    ensures PanelTitle(p) == "" <==> p == Dummy
  {
    TitlesDistinct(p, Dummy);
  }
}
