/** The scenes a token or a resource belongs to (`TokenSceneTypeEnum`). */
module Scenes {
  datatype Scene = General | Web | Mobile | Ios | Android | Wmp | Unknown

  function SceneText(scene: Scene): string {
    match scene
    case General => "General"
    case Web => "Web"
    case Mobile => "Mobile"
    case Ios => "Ios"
    case Android => "Android"
    case Wmp => "WMP"
    case Unknown => "Unknown"
  }

  lemma SceneTextIsInjective(a: Scene, b: Scene)
    requires SceneText(a) == SceneText(b)
    ensures a == b
  {
  }
}
