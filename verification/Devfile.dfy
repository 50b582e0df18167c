/** The parts of a DevWorkspace template that flattening reads and writes. */
module Devfile {
  import opened Options
  import opened Resources

  datatype ImportReference =
    | Uri(uri: string)
    | Id(id: string, registryUrl: string)
    | Kubernetes(name: string, namespace: string)

  /** A size field: empty, a quantity, or text that does not parse as one. */
  datatype SizeField = NoSize | Size(quantity: int) | BadSize

  datatype Volume = Volume(ephemeral: Option<bool>, size: SizeField)

  /** A boolean attribute, which may be missing or unreadable. */
  datatype Flag = Absent | Yes | No | Unreadable

  /** The attributes the operator itself reads; `importedBy` is controller.devfile.io/imported-by. */
  datatype Attributes = Attributes(importedBy: Option<string>, contribution: Flag, mergeContribution: Flag)

  /** `settings` stands for all fields of an element that only overrides change. */
  datatype Overrides = Overrides(components: map<string, int>, commands: map<string, int>)

  /** A container's resources are None when one of its resource fields does not parse. */
  datatype Body =
    | ContainerBody(resources: Option<Requirements>)
    | VolumeBody(volume: Volume)
    | PluginBody(ref: ImportReference, overrides: Overrides)
    | OtherBody

  datatype Component = Component(name: string, attributes: Attributes, settings: int, body: Body)

  /** What a command runs; only exec and apply commands name a component. */
  datatype Action = Exec(component: string) | Apply(component: string) | Composite

  datatype ItemKind = Command | Project | StarterProject | DependentProject

  /** A command or a project of some kind; projects have no action. */
  datatype Item = Item(kind: ItemKind, name: string, importedBy: Option<string>, settings: int, action: Option<Action>)

  datatype Parent = Parent(ref: ImportReference, overrides: Overrides)

  datatype Spec = Spec(parent: Option<Parent>, components: seq<Component>, items: seq<Item>)

  datatype Contribution = Contribution(name: string, ref: ImportReference, overrides: Overrides)

  predicate IsVolume(c: Component) {
    c.body.VolumeBody?
  }

  ghost predicate DistinctVolumes(cs: seq<Component>) {
    forall i, j :: 0 <= i < j < |cs| && IsVolume(cs[i]) && IsVolume(cs[j]) ==> cs[i].name != cs[j].name
  }
}
