/** The pure label handling of the gesture recognizer hook: the eight gesture
    categories the model reports, their Spanish display labels, the
    handedness label, and the two filters that keep browser-extension noise
    out of the console. */
module GestureLabels {
  import opened Wrappers

  /** The categories the gesture model can report (`availableGestures`). */
  const AvailableGestures: seq<string> :=
    ["None", "Closed_Fist", "Open_Palm", "Pointing_Up", "Thumb_Down", "Thumb_Up", "Victory", "ILoveYou"]

  /** `gestureTranslations`: category name to display label. */
  const GestureTranslations: map<string, string> := map[
    "None" := "Ninguno",
    "Closed_Fist" := "Puño Cerrado",
    "Open_Palm" := "Palma Abierta",
    "Pointing_Up" := "Apuntando Arriba",
    "Thumb_Down" := "Pulgar Abajo",
    "Thumb_Up" := "Pulgar Arriba",
    "Victory" := "Victoria",
    "ILoveYou" := "Te Amo"
  ]

  /** `gestureTranslations[name] || name`: the translation when there is a
      non-empty one, the raw category name otherwise. */
  function TranslateLabel(category: string): (text: string)
    ensures category in GestureTranslations ==> text == GestureTranslations[category]
    ensures category !in GestureTranslations ==> text == category
  {
    if category in GestureTranslations && GestureTranslations[category] != "" then GestureTranslations[category]
    else category
  }

  /** The table covers exactly the categories the model can report. */
  lemma TranslationsCoverAvailableGestures()
    ensures GestureTranslations.Keys == set g | g in AvailableGestures
    ensures |AvailableGestures| == 8
  {
  }

  /** Distinct categories of the model get distinct labels, so a label names its category. */
  lemma TranslationInjective(g1: string, g2: string)
    requires g1 in AvailableGestures && g2 in AvailableGestures
    requires TranslateLabel(g1) == TranslateLabel(g2)
    ensures g1 == g2
  {
  }

  /** The handedness label: "Left" is shown as "Izquierda", anything else as "Derecha". */
  function HandednessLabel(displayName: string): (text: string)
    ensures text == "Izquierda" || text == "Derecha"
    ensures text == "Izquierda" <==> displayName == "Left"
  {
    if displayName == "Left" then "Izquierda" else "Derecha"
  }

  /** The phrases the replacement `console.error` swallows. */
  const ConsoleNoisePhrases: seq<string> :=
    ["message channel closed", "Extension context invalidated", "A listener indicated an asynchronous response"]

  /** The phrases a per-frame error is checked against before it is logged. */
  const FrameNoisePhrases: seq<string> := ["message channel", "Extension context"]

  /** The console filter installed at initialisation: a message is dropped when it
      contains one of its three phrases. */
  predicate IsConsoleNoise(message: string)
  {
    Contains(message, ConsoleNoisePhrases[0])
    || Contains(message, ConsoleNoisePhrases[1])
    || Contains(message, ConsoleNoisePhrases[2])
  }

  /** The per-frame error filter: an error is not logged when its text contains
      one of its two phrases. */
  predicate IsFrameNoise(message: string)
  {
    Contains(message, FrameNoisePhrases[0]) || Contains(message, FrameNoisePhrases[1])
  }

  /** The frame filter is at least as wide as the first two console phrases: a
      frame error the console filter would drop for them is not logged by the frame handler either. */
  lemma FrameFilterCoversChannelPhrases(message: string)
    requires Contains(message, ConsoleNoisePhrases[0]) || Contains(message, ConsoleNoisePhrases[1])
    ensures IsFrameNoise(message)
  {
    if Contains(message, ConsoleNoisePhrases[0]) {
      assert ConsoleNoisePhrases[0] == FrameNoisePhrases[0] + " closed";
      ContainsPrefix(message, FrameNoisePhrases[0], " closed");
    } else {
      assert ConsoleNoisePhrases[1] == FrameNoisePhrases[1] + " invalidated";
      ContainsPrefix(message, FrameNoisePhrases[1], " invalidated");
    }
  }

  /** Neither filter swallows a message that contains none of its phrases. */
  lemma FiltersPassGenuineErrors(message: string)
    requires !Contains(message, "message channel") && !Contains(message, "Extension context")
    requires !Contains(message, "A listener indicated an asynchronous response")
    ensures !IsFrameNoise(message)
    ensures !IsConsoleNoise(message)
  {
    if Contains(message, ConsoleNoisePhrases[0]) || Contains(message, ConsoleNoisePhrases[1]) {
      FrameFilterCoversChannelPhrases(message);
    }
  }
}
