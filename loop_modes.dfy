/** `enum LoopEnum` of src/gui.h: what happens when a track ends. */
module LoopModes {

  datatype LoopMode = LoopNone | LoopSong | LoopAll
}
